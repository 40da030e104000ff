/**
 * The integer arithmetic of the vertex layout: the drawn size of a vertex and
 * the angle step that separates it from the next vertex on the circle.  The
 * positions themselves come from cosine and sine on doubles and are not part
 * of this model.
 */
module Layout {
  import opened Builder

  const SCREEN_WIDTH: int := 640
  const VERTEX_RADIUS: int := 20

  datatype Option<T> = None | Some(value: T)

  /** The drawn size of a vertex with `deg` neighbours: two radii plus one radius per neighbour. */
  function VertexSize(deg: nat): (size: int)
    ensures size >= 2 * VERTEX_RADIUS
    ensures (size - 2 * VERTEX_RADIUS) % VERTEX_RADIUS == 0 && (size - 2 * VERTEX_RADIUS) / VERTEX_RADIUS == deg
  {
    VERTEX_RADIUS * 2 + deg * VERTEX_RADIUS
  }

  /**
   * The angle step after a vertex with `deg` neighbours: 360 divided by `deg`,
   * truncated.  A vertex without neighbours makes the program divide by zero,
   * which has no defined result: `None`.
   */
  function AngleStep(deg: nat): (r: Option<int>)
    ensures r.None? <==> deg == 0
    ensures r.Some? ==> r.value * deg <= 360 < (r.value + 1) * deg
  {
    if deg == 0 then None else Some(360 / deg)
  }

  /** A neighbour list of the builder never holds its own vertex, so a degree is below the vertex count. */
  lemma {:induction false} LinkedLength(rand: nat -> nat, n: nat, v: nat, b: nat)
    requires v < n && b <= n
    ensures |Linked(rand, n, v, b)| + (if v < b then 1 else 0) <= b
  {
    if b > 0 {
      LinkedLength(rand, n, v, b - 1);
    }
  }

  /**
   * In a generated graph (at most 20 vertices) every vertex has fewer than 20
   * neighbours, so its size is at most 2 + 19 radii.
   */
  lemma GeneratedSizeBounded(rand: nat -> nat, n: nat, v: nat)
    requires n <= MAX_VERTICES && v < n
    ensures |Generated(rand, n)[v]| < n
    ensures VertexSize(|Generated(rand, n)[v]|) <= 21 * VERTEX_RADIUS
  {
    LinkedLength(rand, n, v, n);
  }

  /** With every coin odd, no partner below `b` is ever linked. */
  lemma {:induction false} NoEvenCoinNoPartner(rand: nat -> nat, n: nat, v: nat, b: nat)
    requires forall k :: rand(k) % 2 == 1
    requires v < n && b <= n
    ensures Linked(rand, n, v, b) == []
  {
    if b > 0 {
      NoEvenCoinNoPartner(rand, n, v, b - 1);
    }
  }

  /**
   * When every coin is odd the builder adds no edge, every vertex is isolated,
   * and the layout's angle step for every vertex is a division by zero.
   */
  lemma AllOddCoinsIsolateEveryVertex(rand: nat -> nat, n: nat, v: nat)
    requires forall k :: rand(k) % 2 == 1
    requires v < n
    ensures Generated(rand, n)[v] == []
    ensures AngleStep(|Generated(rand, n)[v]|) == None
  {
    NoEvenCoinNoPartner(rand, n, v, n);
  }
}
