/** The edge list that both graph constructors take: each edge is a list
    whose first two entries are its source and its destination. */
module GraphEdges {

  /** The edge `e` joins `x` to `y`: in the order given, or in either order
      when the graph is undirected. */
  ghost predicate Joins<T>(e: seq<T>, x: T, y: T, directed: bool) {
    |e| >= 2 && ((e[0] == x && e[1] == y) || (!directed && e[0] == y && e[1] == x))
  }

  /** One of the first `n` edges joins `x` to `y`, read from the last of them
      back, the way a loop over the list builds it up. */
  ghost predicate JoinedBy<T>(edges: seq<seq<T>>, n: nat, x: T, y: T, directed: bool)
    requires n <= |edges|
  {
    n > 0 && (JoinedBy(edges, n - 1, x, y, directed) || Joins(edges[n - 1], x, y, directed))
  }

  /** No edge before the `j`-th joins the pair the `j`-th one joins, so
      adding the edges in order does not find it already there. */
  ghost predicate FirstToJoin<T>(edges: seq<seq<T>>, j: nat, directed: bool)
    requires j < |edges| && |edges[j]| >= 2
  {
    forall k :: 0 <= k < j ==> !Joins(edges[k], edges[j][0], edges[j][1], directed)
  }

  /** `JoinedBy` holds exactly when one of the first `n` edges joins `x` to `y`. */
  lemma {:induction false} JoinedByIff<T>(edges: seq<seq<T>>, n: nat, x: T, y: T, directed: bool)
    requires n <= |edges|
    ensures JoinedBy(edges, n, x, y, directed) <==> exists j :: 0 <= j < n && Joins(edges[j], x, y, directed)
  {
    if n > 0 {
      JoinedByIff(edges, n - 1, x, y, directed);
    }
  }
}
