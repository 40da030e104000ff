/**
 * Walks over neighbour lists, and the state of a breadth-first traversal.
 *
 * `Frontier` bundles what holds between two dequeues: the dequeued vertices
 * followed by the queue are duplicate-free and begin with the start vertex, the
 * visited set is exactly their elements, every neighbour of a dequeued vertex is
 * visited, and every visited vertex has a recorded walk from the start.
 */
module Traversal {
  import opened Coloring


  /** `p` is a walk: consecutive vertices are joined by a neighbour link. */
  ghost predicate IsPath(adj: seq<seq<nat>>, p: seq<nat>)
  {
    |p| > 0 && (forall k :: 0 <= k < |p| ==> p[k] < |adj|)
    && forall k :: 0 < k < |p| ==> p[k] in adj[p[k - 1]]
  }

  /** Some walk leads from `s` to `t`. */
  ghost predicate Reachable(adj: seq<seq<nat>>, s: nat, t: nat)
  {
    exists p :: IsPath(adj, p) && p[0] == s && p[|p| - 1] == t
  }

  /** A set that contains the start of a walk and is closed under neighbour links contains the whole walk. */
  lemma {:induction false} ClosedSetContainsWalk(adj: seq<seq<nat>>, closed: set<nat>, p: seq<nat>)
    requires IsPath(adj, p) && p[0] in closed
    requires forall u, w :: u in closed && u < |adj| && w in adj[u] ==> w in closed
    ensures p[|p| - 1] in closed
    decreases |p|
  {
    if |p| > 1 {
      var init := p[..|p| - 1];
      assert IsPath(adj, init) by {
        assert forall k :: 0 <= k < |init| ==> init[k] == p[k];
      }
      ClosedSetContainsWalk(adj, closed, init);
      assert p[|p| - 1] in adj[p[|p| - 2]];
    }
  }

  /** Extending a walk by a neighbour of its last vertex gives a walk. */
  lemma ExtendWalk(adj: seq<seq<nat>>, p: seq<nat>, w: nat)
    requires IsPath(adj, p) && w < |adj| && w in adj[p[|p| - 1]]
    ensures IsPath(adj, p + [w]) && (p + [w])[0] == p[0]
  {
    var q := p + [w];
    forall k | 0 < k < |q| ensures q[k] in adj[q[k - 1]] {
      if k < |p| { assert q[k] == p[k] && q[k - 1] == p[k - 1]; }
    }
  }

  /** A set of vertex indices below `n` has at most `n` elements. */
  lemma {:induction false} BoundedSetSize(s: set<nat>, n: nat)
    requires forall x :: x in s ==> x < n
    ensures |s| <= n
    decreases n
  {
    if n == 0 {
      assert s == {};
    } else {
      BoundedSetSize(s - {n - 1}, n - 1);
    }
  }

  /**
   * The vertices of `nbrs` a breadth-first traversal enqueues when it scans that
   * neighbour list with `visited` already marked: each unvisited one, in list
   * order, the first time it appears.
   */
  function Unvisited(nbrs: seq<nat>, visited: set<nat>): (r: seq<nat>)
    decreases |nbrs|
    ensures forall x :: x in r <==> x in nbrs && x !in visited
    ensures Distinct(r)
  {
    if nbrs == [] then []
    else
      var init := nbrs[..|nbrs| - 1];
      var w := nbrs[|nbrs| - 1];
      var r0 := Unvisited(init, visited);
      assert nbrs == init + [w];
      if w in visited || w in init then r0 else r0 + [w]
  }

  /** The vertices a neighbour list names. */
  function Listed(nbrs: seq<nat>): set<nat>
  {
    set x | x in nbrs
  }

  /** Marking a neighbour list visited adds exactly the vertices `Unvisited` enqueues. */
  lemma {:induction false} UnvisitedCount(nbrs: seq<nat>, visited: set<nat>)
    ensures |visited + Listed(nbrs)| == |visited| + |Unvisited(nbrs, visited)|
    decreases |nbrs|
  {
    if nbrs == [] {
      assert visited + Listed(nbrs) == visited by { assert Listed(nbrs) == {}; }
    } else {
      var init := nbrs[..|nbrs| - 1];
      var w := nbrs[|nbrs| - 1];
      var before := visited + Listed(init);
      UnvisitedCount(init, visited);
      assert visited + Listed(nbrs) == before + {w} by {
        assert nbrs == init + [w];
      }
      if w in visited || w in init {
        assert before + {w} == before;
        assert Unvisited(nbrs, visited) == Unvisited(init, visited);
      } else {
        assert w !in before;
        assert Unvisited(nbrs, visited) == Unvisited(init, visited) + [w];
      }
    }
  }

  /**
   * The order in which a breadth-first traversal dequeues vertices, from the
   * queue `q` with `visited` marked: the front of the queue, then the order the
   * traversal continues in after that vertex's unvisited neighbours are pushed
   * to the back and marked.
   */
  function Bfs(adj: seq<seq<nat>>, q: seq<nat>, visited: set<nat>): seq<nat>
    requires WellFormed(adj) && InRange(adj, q)
    requires forall x :: x in visited ==> x < |adj|
    decreases |adj| - |visited|, |q|
  {
    BoundedSetSize(visited, |adj|);
    if q == [] then []
    else
      var v := q[0];
      var added := Unvisited(adj[v], visited);
      var visited' := visited + Listed(adj[v]);
      UnvisitedCount(adj[v], visited);
      BoundedSetSize(visited', |adj|);
      assert InRange(adj, q[1..] + added) by {
        forall k | 0 <= k < |q[1..] + added| ensures (q[1..] + added)[k] < |adj| {
          if k < |q| - 1 { assert (q[1..] + added)[k] == q[k + 1]; }
          else { assert (q[1..] + added)[k] in adj[v]; }
        }
      }
      [v] + Bfs(adj, q[1..] + added, visited')
  }

  /** Two duplicate-free sequences with no common element concatenate to a duplicate-free one. */
  lemma DistinctConcat(a: seq<nat>, b: seq<nat>)
    requires Distinct(a) && Distinct(b)
    requires forall x :: x in a ==> x !in b
    ensures Distinct(a + b)
  {
    forall i, j | 0 <= i < j < |a + b| ensures (a + b)[i] != (a + b)[j] {
      if i < |a| && |a| <= j {
        assert (a + b)[i] == a[i] && (a + b)[j] == b[j - |a|];
        assert a[i] in a && b[j - |a|] in b;
      } else if |a| <= i {
        assert (a + b)[i] == b[i - |a|] && (a + b)[j] == b[j - |a|];
      } else {
        assert (a + b)[i] == a[i] && (a + b)[j] == a[j];
      }
    }
  }

  /** What holds in the traversal between two dequeues. */
  ghost predicate Frontier(adj: seq<seq<nat>>, start: nat, order: seq<nat>, q: seq<nat>,
                           visited: set<nat>, paths: map<nat, seq<nat>>)
  {
    InRange(adj, order) && InRange(adj, q)
    && Distinct(order + q) && |order + q| > 0 && (order + q)[0] == start
    && (forall x :: x in visited <==> x in order || x in q)
    && |visited| == |order| + |q|
    && (forall u, w :: u in order && u < |adj| && w in adj[u] ==> w in visited)
    && forall x :: x in visited ==>
         (x in paths && IsPath(adj, paths[x]) && paths[x][0] == start && paths[x][|paths[x]| - 1] == x)
  }

  /** The state right after the start vertex is enqueued. */
  lemma FrontierInit(adj: seq<seq<nat>>, start: nat)
    requires start < |adj|
    ensures Frontier(adj, start, [], [start], {start}, map[start := [start]])
  {
    assert [] + [start] == [start];
  }

  /** Dequeuing `q[0]` and appending `added` keeps the dequeued-then-queued sequence duplicate-free and in range. */
  lemma QueueStep(adj: seq<seq<nat>>, start: nat, order: seq<nat>, q: seq<nat>, visited: set<nat>, added: seq<nat>)
    requires InRange(adj, order) && InRange(adj, q) && InRange(adj, added) && q != []
    requires Distinct(order + q) && (order + q)[0] == start && Distinct(added)
    requires forall x :: x in order || x in q ==> x in visited
    requires forall x :: x in added ==> x !in visited
    ensures InRange(adj, order + [q[0]]) && InRange(adj, q[1..] + added)
    ensures Distinct((order + [q[0]]) + (q[1..] + added)) && ((order + [q[0]]) + (q[1..] + added))[0] == start
    ensures forall x :: x in (order + [q[0]]) || x in (q[1..] + added) <==> x in order || x in q || x in added
  {
    var v := q[0];
    var order', q' := order + [v], q[1..] + added;
    assert order' + q' == (order + q) + added by { assert q == [v] + q[1..]; }
    DistinctConcat(order + q, added);
    forall k | 0 <= k < |q'| ensures q'[k] < |adj| {
      if k >= |q| - 1 { assert q'[k] == added[k - (|q| - 1)]; }
      else { assert q'[k] == q[k + 1]; }
    }
    forall x ensures x in order' || x in q' <==> x in order || x in q || x in added {
      if x in q { assert x == v || x in q[1..] by { assert q == [v] + q[1..]; } }
    }
  }

  /** The walks to the newly visited vertices: the walk to `v` extended by one link. */
  lemma PathsStep(adj: seq<seq<nat>>, start: nat, v: nat, visited: set<nat>, paths: map<nat, seq<nat>>, visited': set<nat>)
      returns (paths': map<nat, seq<nat>>)
    requires WellFormed(adj) && v < |adj| && v in visited
    requires forall x :: x in visited ==>
               (x in paths && IsPath(adj, paths[x]) && paths[x][0] == start && paths[x][|paths[x]| - 1] == x)
    requires forall x :: x in visited' <==> x in visited || x in adj[v]
    ensures forall x :: x in visited' ==>
              (x in paths' && IsPath(adj, paths'[x]) && paths'[x][0] == start && paths'[x][|paths'[x]| - 1] == x)
  {
    var pv := paths[v];
    paths' := map x | x in visited' :: if x in visited then paths[x] else pv + [x];
    forall x | x in visited' && x !in visited
      ensures IsPath(adj, paths'[x]) && paths'[x][0] == start && paths'[x][|paths'[x]| - 1] == x
    {
      assert x in adj[pv[|pv| - 1]] && x < |adj|;
      ExtendWalk(adj, pv, x);
    }
  }

  /**
   * Dequeuing `q[0]` and enqueuing its unvisited neighbours keeps the frontier
   * state; `paths'` extends the walk to `q[0]` by one link for each new vertex.
   */
  lemma FrontierStep(adj: seq<seq<nat>>, start: nat, order: seq<nat>, q: seq<nat>,
                     visited: set<nat>, paths: map<nat, seq<nat>>, visited': set<nat>)
      returns (paths': map<nat, seq<nat>>)
    requires WellFormed(adj) && Frontier(adj, start, order, q, visited, paths) && q != []
    requires forall x :: x in visited' <==> x in visited || x in adj[q[0]]
    requires |visited'| == |visited| + |Unvisited(adj[q[0]], visited)|
    ensures Frontier(adj, start, order + [q[0]], q[1..] + Unvisited(adj[q[0]], visited), visited', paths')
  {
    var v := q[0];
    var added := Unvisited(adj[v], visited);
    assert v in visited && v < |adj|;
    assert InRange(adj, added) by {
      forall k | 0 <= k < |added| ensures added[k] < |adj| { assert added[k] in adj[v]; }
    }
    QueueStep(adj, start, order, q, visited, added);
    paths' := PathsStep(adj, start, v, visited, paths, visited');
  }

  /** With the queue empty, the dequeued vertices are exactly those reachable from the start. */
  lemma FrontierDone(adj: seq<seq<nat>>, start: nat, order: seq<nat>, visited: set<nat>, paths: map<nat, seq<nat>>)
    requires Frontier(adj, start, order, [], visited, paths)
    ensures |order| > 0 && order[0] == start && Distinct(order) && InRange(adj, order)
    ensures forall t: nat :: t in order <==> Reachable(adj, start, t)
  {
    assert order + [] == order;
    forall t: nat | Reachable(adj, start, t) ensures t in order {
      var p :| IsPath(adj, p) && p[0] == start && p[|p| - 1] == t;
      ClosedSetContainsWalk(adj, visited, p);
    }
    forall t: nat | t in order ensures Reachable(adj, start, t) {
      assert IsPath(adj, paths[t]);
    }
  }

  /** Moving one element across a concatenation. */
  lemma Reassociate(a: seq<nat>, v: nat, b: seq<nat>)
    ensures a + ([v] + b) == (a + [v]) + b
  {
  }

  /**
   * One dequeue: the breadth-first order from queue `q0` is its front vertex
   * followed by the order from the queue and visited set that the enqueue of
   * that vertex's unvisited neighbours leaves behind.
   */
  lemma BfsStep(adj: seq<seq<nat>>, q0: seq<nat>, visited0: set<nat>, q: seq<nat>, visited: set<nat>)
    requires WellFormed(adj) && InRange(adj, q0) && q0 != []
    requires forall x :: x in visited0 ==> x < |adj|
    requires q == q0[1..] + Unvisited(adj[q0[0]], visited0)
    requires forall x :: x in visited <==> x in visited0 || x in adj[q0[0]]
    ensures InRange(adj, q) && forall x :: x in visited ==> x < |adj|
    ensures Bfs(adj, q0, visited0) == [q0[0]] + Bfs(adj, q, visited)
  {
    var v := q0[0];
    forall k | 0 <= k < |q| ensures q[k] < |adj| {
      if k < |q0| - 1 { assert q[k] == q0[k + 1]; }
      else { assert q[k] in adj[v]; }
    }
    assert visited == visited0 + Listed(adj[v]);
  }

  /**
   * From any state between two dequeues, the traversal goes on in the order
   * `Bfs` gives: the dequeued vertices followed by that order start at the start
   * vertex, are duplicate-free, and are exactly the vertices reachable from it.
   */
  lemma {:induction false} BfsContinuesFrontier(adj: seq<seq<nat>>, start: nat, order: seq<nat>, q: seq<nat>,
                                                visited: set<nat>, paths: map<nat, seq<nat>>)
    requires WellFormed(adj) && Frontier(adj, start, order, q, visited, paths)
    requires forall x :: x in visited ==> x < |adj|
    ensures |order + Bfs(adj, q, visited)| > 0 && (order + Bfs(adj, q, visited))[0] == start
    ensures Distinct(order + Bfs(adj, q, visited)) && InRange(adj, order + Bfs(adj, q, visited))
    ensures forall t: nat :: t in order + Bfs(adj, q, visited) <==> Reachable(adj, start, t)
    decreases |adj| - |visited|, |q|
  {
    BoundedSetSize(visited, |adj|);
    if q == [] {
      assert order + Bfs(adj, q, visited) == order;
      FrontierDone(adj, start, order, visited, paths);
    } else {
      var v := q[0];
      var added := Unvisited(adj[v], visited);
      var visited' := visited + Listed(adj[v]);
      UnvisitedCount(adj[v], visited);
      BoundedSetSize(visited', |adj|);
      var paths' := FrontierStep(adj, start, order, q, visited, paths, visited');
      BfsContinuesFrontier(adj, start, order + [v], q[1..] + added, visited', paths');
      var rest := Bfs(adj, q[1..] + added, visited');
      assert Bfs(adj, q, visited) == [v] + rest;
      Reassociate(order, v, rest);
    }
  }

  /**
   * The breadth-first order from `start` begins at `start`, visits no vertex
   * twice, and visits exactly the vertices reachable from `start`.
   */
  lemma BfsVisitsReachable(adj: seq<seq<nat>>, start: nat)
    requires WellFormed(adj) && start < |adj|
    ensures |Bfs(adj, [start], {start})| > 0 && Bfs(adj, [start], {start})[0] == start
    ensures Distinct(Bfs(adj, [start], {start})) && InRange(adj, Bfs(adj, [start], {start}))
    ensures forall t: nat :: t in Bfs(adj, [start], {start}) <==> Reachable(adj, start, t)
  {
    FrontierInit(adj, start);
    BfsContinuesFrontier(adj, start, [], [start], {start}, map[start := [start]]);
    assert [] + Bfs(adj, [start], {start}) == Bfs(adj, [start], {start});
  }
}
