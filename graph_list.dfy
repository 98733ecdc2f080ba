/** A graph kept as a dictionary from each vertex to the list of its
    neighbours, directed or undirected (class `GraphAdjacencyList` of
    aA-control.py). */
module AdjacencyList {
  import opened Wrappers
  import opened Sequences
  import opened GraphEdges

  /** The ValueErrors the class raises, told apart by their cause. */
  datatype GraphError = MissingVertex | VertexExists | EdgeExists | EdgeMissing | WrongLength

  /** `if x in s: s.remove(x)`: the first occurrence of `x`, if any, taken
      out. */
  function Discard<T(==)>(s: seq<T>, x: T): seq<T> {
    if x in s then Remove(s, x) else s
  }

  /** The entries at `i < j` are equal only when both are `u`, side by
      side. */
  ghost predicate OnlySelfRepeats<T>(s: seq<T>, u: T, i: int, j: int)
    requires 0 <= i < j < |s|
  {
    s[i] == s[j] ==> s[i] == u && j == i + 1
  }

  /** An entry `u` at `i` has an equal entry next to it. */
  ghost predicate TwinIfSelf<T>(s: seq<T>, u: T, i: int)
    requires 0 <= i < |s|
  {
    s[i] == u ==> (i + 1 < |s| && s[i + 1] == u) || (0 < i && s[i - 1] == u)
  }

  /** The repetitions an undirected neighbour list of `u` can hold: a
      self-loop appends `u` twice in a row, so `u` occurs either not at all
      or at two adjacent positions, and every other vertex at most once. */
  ghost predicate SelfPaired<T>(s: seq<T>, u: T) {
    && (forall i, j :: 0 <= i < j < |s| ==> OnlySelfRepeats(s, u, i, j))
    && (forall i :: 0 <= i < |s| ==> TwinIfSelf(s, u, i))
  }

  /** The object invariant: every neighbour is a vertex; a directed graph
      repeats no neighbour; an undirected graph lists every edge at both
      ends and repeats nothing but a self-loop's two entries. */
  ghost predicate Wf<T>(adj: map<T, seq<T>>, directed: bool) {
    && (forall u, w :: u in adj && w in adj[u] ==> w in adj)
    && (directed ==> forall u :: u in adj ==> Distinct(adj[u]))
    && (!directed ==> forall u, w :: u in adj && w in adj[u] ==> u in adj[w])
    && (!directed ==> forall u :: u in adj ==> SelfPaired(adj[u], u))
  }

  /** The edge from `u` to `w` that the lists record. */
  predicate Edge<T>(adj: map<T, seq<T>>, u: T, w: T) {
    u in adj && w in adj[u]
  }

  /** The lists after `add_edge(u, w)`: `w` appended to the list of `u`,
      then, when undirected, `u` appended to the list of `w`. */
  function WithEdge<T>(adj: map<T, seq<T>>, u: T, w: T, directed: bool): map<T, seq<T>>
    requires u in adj && w in adj
  {
    var a := adj[u := adj[u] + [w]];
    if directed then a else a[w := a[w] + [u]]
  }

  /** The lists after `remove_edge(u, w)`: `w` removed from the list of `u`,
      then, when undirected, `u` removed from the list of `w`. */
  function WithoutEdge<T>(adj: map<T, seq<T>>, u: T, w: T, directed: bool): map<T, seq<T>>
    requires u in adj && w in adj
  {
    var a := adj[u := Discard(adj[u], w)];
    if directed then a else a[w := Discard(a[w], u)]
  }

  /** The lists after `remove_vertex(v)`: `v` removed from every other list,
      and its own list dropped. */
  function Detach<T>(adj: map<T, seq<T>>, v: T): map<T, seq<T>> {
    map x | x in adj && x != v :: Discard(adj[x], v)
  }

  /** Where a self-loop's two entries sit: at the first occurrence of `u`
      and right after it, and nowhere else. */
  lemma {:induction false} PairPositions<T>(s: seq<T>, u: T)
    requires SelfPaired(s, u) && u in s
    ensures IndexOf(s, u) + 1 < |s| && s[IndexOf(s, u) + 1] == u
    ensures forall j :: 0 <= j < |s| && s[j] == u ==> j == IndexOf(s, u) || j == IndexOf(s, u) + 1
  {
    var p := IndexOf(s, u);
    IndexOfFirst(s, u);
    assert TwinIfSelf(s, u, p);
    forall j | 0 <= j < |s| && s[j] == u
      ensures j == p || j == p + 1
    {
      if j > p {
        assert OnlySelfRepeats(s, u, p, j);
      }
    }
  }

  /** Appending a new neighbour other than `u` keeps the shape. */
  lemma {:induction false} PairedAppend<T>(s: seq<T>, u: T, w: T)
    requires SelfPaired(s, u) && w !in s && w != u
    ensures SelfPaired(s + [w], u)
  {
    var t := s + [w];
    forall i, j | 0 <= i < j < |t|
      ensures OnlySelfRepeats(t, u, i, j)
    {
      if j < |s| {
        assert OnlySelfRepeats(s, u, i, j);
      } else {
        assert t[i] == s[i];
      }
    }
    forall i | 0 <= i < |t|
      ensures TwinIfSelf(t, u, i)
    {
      if i < |s| {
        assert TwinIfSelf(s, u, i);
      }
    }
  }

  /** Appending `u` twice to a list without it keeps the shape. */
  lemma {:induction false} PairedAppendSelf<T>(s: seq<T>, u: T)
    requires SelfPaired(s, u) && u !in s
    ensures SelfPaired(s + [u] + [u], u)
  {
    var t := s + [u] + [u];
    forall i, j | 0 <= i < j < |t|
      ensures OnlySelfRepeats(t, u, i, j)
    {
      if j < |s| {
        assert OnlySelfRepeats(s, u, i, j);
      } else if i < |s| {
        assert t[i] == s[i];
      }
    }
    forall i | 0 <= i < |t|
      ensures TwinIfSelf(t, u, i)
    {
      if i < |s| {
        assert t[i] == s[i];
      }
    }
  }

  /** Removing a vertex other than `u` keeps the shape and leaves no copy of
      that vertex. */
  lemma {:induction false} PairedDiscard<T>(s: seq<T>, u: T, x: T)
    requires SelfPaired(s, u) && x != u
    ensures SelfPaired(Discard(s, x), u)
    ensures forall y :: y in Discard(s, x) <==> y in s && y != x
  {
    if x in s {
      var k := IndexOf(s, x);
      var t := RemoveAt(s, k);
      forall i, j | 0 <= i < j < |t|
        ensures OnlySelfRepeats(t, u, i, j)
      {
        var i', j' := if i < k then i else i + 1, if j < k then j else j + 1;
        assert OnlySelfRepeats(s, u, i', j');
      }
      forall i | 0 <= i < |t|
        ensures TwinIfSelf(t, u, i)
      {
        var i' := if i < k then i else i + 1;
        assert TwinIfSelf(s, u, i');
      }
      forall y
        ensures y in t <==> y in s && y != x
      {
        if y in t {
          var a :| 0 <= a < |t| && t[a] == y;
          var a' := if a < k then a else a + 1;
          assert s[a'] == y;
          if a' < k {
            assert OnlySelfRepeats(s, u, a', k);
          } else {
            assert OnlySelfRepeats(s, u, k, a');
          }
        }
        if y in s && y != x {
          RemoveAtKeeps(s, k, y);
        }
      }
    }
  }

  /** Removing `u` twice from a list holding its pair keeps the shape and
      leaves no copy of `u`. */
  lemma {:induction false} PairedDiscardSelf<T>(s: seq<T>, u: T)
    requires SelfPaired(s, u) && u in s
    ensures u in Discard(s, u)
    ensures SelfPaired(Discard(Discard(s, u), u), u)
    ensures forall y :: y in Discard(Discard(s, u), u) <==> y in s && y != u
  {
    var p := IndexOf(s, u);
    PairPositions(s, u);
    var t1 := RemoveAt(s, p);
    assert t1[p] == u;
    var q := IndexOf(t1, u);
    assert q == p by {
      IndexOfFirst(t1, u);
      assert t1[q] == s[if q < p then q else q + 1];
    }
    var t2 := RemoveAt(t1, p);
    assert forall i :: 0 <= i < |t2| ==> t2[i] == s[if i < p then i else i + 2];
    forall i, j | 0 <= i < j < |t2|
      ensures t2[i] != t2[j] && OnlySelfRepeats(t2, u, i, j)
    {
      var i', j' := if i < p then i else i + 2, if j < p then j else j + 2;
      assert t2[i] == s[i'] && t2[j] == s[j'];
      assert OnlySelfRepeats(s, u, i', j');
    }
    forall i | 0 <= i < |t2|
      ensures t2[i] != u && TwinIfSelf(t2, u, i)
    {
      assert t2[i] == s[if i < p then i else i + 2];
    }
    forall y
      ensures y in t2 <==> y in s && y != u
    {
      if y in s && y != u {
        var a :| 0 <= a < |s| && s[a] == y;
        assert t2[if a < p then a else a - 2] == y;
      }
    }
  }

  /** Removing a vertex from a list without repetitions keeps it without
      repetitions and leaves no copy of that vertex. */
  lemma {:induction false} DistinctDiscard<T>(s: seq<T>, x: T)
    requires Distinct(s)
    ensures Distinct(Discard(s, x))
    ensures forall y :: y in Discard(s, x) <==> y in s && y != x
  {
    if x in s {
      var k := IndexOf(s, x);
      DistinctRemoveAt(s, k);
      forall y | y in s && y != x
        ensures y in RemoveAt(s, k)
      {
        RemoveAtKeeps(s, k, y);
      }
    }
  }

  /** `add_edge` of an absent edge keeps the invariant and adds that edge,
      and its reverse when undirected, and nothing else. */
  lemma {:induction false} WithEdgeWf<T>(adj: map<T, seq<T>>, directed: bool, u: T, w: T)
    requires Wf(adj, directed) && u in adj && w in adj && w !in adj[u]
    ensures Wf(WithEdge(adj, u, w, directed), directed)
    ensures forall x, y :: Edge(WithEdge(adj, u, w, directed), x, y) <==>
      Edge(adj, x, y) || (x == u && y == w) || (!directed && x == w && y == u)
  {
    if directed {
      DistinctAppend(adj[u], w);
    } else if u == w {
      PairedAppendSelf(adj[u], u);
    } else {
      assert u !in adj[w];
      PairedAppend(adj[u], u, w);
      PairedAppend(adj[w], w, u);
    }
  }

  /** `remove_edge` of a present edge keeps the invariant and removes that
      edge, and its reverse when undirected, and nothing else. When
      undirected, the second `remove` finds its element. */
  lemma {:induction false} WithoutEdgeWf<T>(adj: map<T, seq<T>>, directed: bool, u: T, w: T)
    requires Wf(adj, directed) && Edge(adj, u, w)
    ensures !directed ==> u in adj[u := Discard(adj[u], w)][w]
    ensures Wf(WithoutEdge(adj, u, w, directed), directed)
    ensures forall x, y :: Edge(WithoutEdge(adj, u, w, directed), x, y) <==>
      Edge(adj, x, y) && !((x == u && y == w) || (!directed && x == w && y == u))
  {
    if directed {
      DistinctDiscard(adj[u], w);
    } else if u == w {
      PairedDiscardSelf(adj[u], u);
    } else {
      WithoutEdgeWfPair(adj, u, w);
    }
  }

  /** `WithoutEdgeWf` for an undirected edge between two distinct vertices. */
  lemma {:induction false} WithoutEdgeWfPair<T>(adj: map<T, seq<T>>, u: T, w: T)
    requires Wf(adj, false) && Edge(adj, u, w) && u != w
    ensures u in adj[u := Discard(adj[u], w)][w]
    ensures Wf(WithoutEdge(adj, u, w, false), false)
    ensures forall x, y :: Edge(WithoutEdge(adj, u, w, false), x, y) <==>
      Edge(adj, x, y) && !((x == u && y == w) || (x == w && y == u))
  {
    PairedDiscard(adj[u], u, w);
    PairedDiscard(adj[w], w, u);
  }

  /** `remove_vertex` keeps the invariant and removes exactly the edges at
      the removed vertex. */
  lemma {:induction false} DetachWf<T>(adj: map<T, seq<T>>, directed: bool, v: T)
    requires Wf(adj, directed) && v in adj
    ensures Wf(Detach(adj, v), directed)
    ensures forall x, y :: Edge(Detach(adj, v), x, y) <==> Edge(adj, x, y) && x != v && y != v
  {
    var adj' := Detach(adj, v);
    forall x | x in adj'
      ensures forall y :: y in adj'[x] <==> y in adj[x] && y != v
      ensures directed ==> Distinct(adj'[x])
      ensures !directed ==> SelfPaired(adj'[x], x)
    {
      if directed {
        DistinctDiscard(adj[x], v);
      } else {
        PairedDiscard(adj[x], x, v);
      }
    }
  }

  /** One step of the undirected walk in `remove_vertex`. The list walked is
      the original list `l0` until the self-loop's first entry (at `p`) has
      been removed from it; `c` counts the entries of `l0` walked. The entry
      at `i` is the next entry of `l0`, appears in no earlier one, and is `v`
      only at the self-loop's first entry, whose removal leaves the list
      without the pair's first half. */
  lemma {:induction false} UnlinkStep<T>(l0: seq<T>, v: T, p: int, i: int, c: int, live: seq<T>)
    requires SelfPaired(l0, v)
    requires p == if v in l0 then IndexOf(l0, v) else |l0|
    requires v in l0 ==> p + 1 < |l0| && l0[p + 1] == v
    requires forall j :: 0 <= j < |l0| && l0[j] == v ==> j == p || j == p + 1
    requires 0 <= i < |live| && c == (if i > p then i + 1 else i)
    requires i > p ==> p + 1 < |l0|
    requires live == if i > p then RemoveAt(l0, p) else l0
    ensures c < |l0| && live[i] == l0[c] && live[i] !in l0[..c]
    ensures live[i] != v ==> l0[..c + 1] == l0[..c] + [live[i]]
    ensures live[i] == v ==>
      && c == p && i == p && live == l0 && Remove(live, v) == RemoveAt(l0, p)
      && c + 2 <= |l0| && l0[..c + 2] == l0[..c] + [v, v]
  {
    if i > p {
      assert live[i] == l0[i + 1];
    }
    var n := l0[c];
    forall j | 0 <= j < c
      ensures l0[j] != n
    {
      assert OnlySelfRepeats(l0, v, j, c);
    }
    assert l0[..c + 1] == l0[..c] + [n];
    if n == v {
      assert c == p;
      assert l0[..c + 2] == l0[..c] + [v, v];
    }
  }

  /** Each of the first `n` edges is one the constructor accepts. */
  ghost predicate AllWellFormed<T>(edges: seq<seq<T>>, n: nat, keys: set<T>)
    requires n <= |edges|
  {
    forall j :: 0 <= j < n ==> WellFormedEdge(edges, j, keys)
  }

  /** The adjacency lists hold exactly the pairs the first `n` edges join. */
  ghost predicate Represents<T(!new)>(adj: map<T, seq<T>>, edges: seq<seq<T>>, n: nat, directed: bool)
    requires n <= |edges|
  {
    forall x, y :: Edge(adj, x, y) <==> JoinedBy(edges, n, x, y, directed)
  }

  /** The `j`-th edge has two entries, both of them vertices. */
  ghost predicate WellFormedEdge<T>(edges: seq<seq<T>>, j: nat, keys: set<T>)
    requires j < |edges|
  {
    |edges[j]| == 2 && edges[j][0] in keys && edges[j][1] in keys
  }

  /** The `j`-th edge is one the constructor adds after the edges before
      it: two entries, both vertices, joining a pair not joined yet. */
  ghost predicate AcceptedEdge<T>(edges: seq<seq<T>>, j: nat, keys: set<T>, directed: bool)
    requires j < |edges|
  {
    WellFormedEdge(edges, j, keys) && FirstToJoin(edges, j, directed)
  }

  /** The constructor adds every edge: each one is accepted in turn. */
  ghost predicate AllAccepted<T>(edges: seq<seq<T>>, keys: set<T>, directed: bool) {
    forall j :: 0 <= j < |edges| ==> AcceptedEdge(edges, j, keys, directed)
  }

  /** Reading one more edge adds exactly the pairs that edge joins. */
  lemma EdgeStep<T(!new)>(a: map<T, seq<T>>, b: map<T, seq<T>>, edges: seq<seq<T>>, i: nat, directed: bool)
    requires i < |edges|
    requires Represents(a, edges, i, directed)
    requires forall x, y :: Edge(b, x, y) <==> Edge(a, x, y) || Joins(edges[i], x, y, directed)
    ensures Represents(b, edges, i + 1, directed)
  {
  }

  class GraphAdjacencyList<T(==, !new)> {
    const directed: bool
    var adjList: map<T, seq<T>>

    ghost predicate Valid()
      reads this
    {
      Wf(adjList, directed)
    }

    /** The edge relation the lists stand for. */
    ghost predicate HasEdge(u: T, w: T)
      reads this
    {
      Edge(adjList, u, w)
    }

    /** An empty graph: the state before `__init__` adds anything. */
    constructor Empty(directed: bool)
      ensures Valid() && this.directed == directed && adjList == map[]
    {
      this.directed := directed;
      adjList := map[];
    }

    /** `__init__`: every vertex added, then every edge after checking that
        it has exactly two entries, stopping at the first failure. */
    static method New(vertices: seq<T>, edges: seq<seq<T>>, directed: bool)
      returns (r: Result<GraphAdjacencyList<T>, GraphError>)
      ensures r == Failure(VertexExists) <==> !Distinct(vertices)
      ensures r.Success? <==> Distinct(vertices) && AllAccepted(edges, (set v | v in vertices), directed)
      ensures r.Success? ==>
        && fresh(r.value) && r.value.Valid() && r.value.directed == directed
        && (forall v :: v in r.value.adjList <==> v in vertices)
        && (forall j :: 0 <= j < |edges| ==> WellFormedEdge(edges, j, r.value.adjList.Keys))
        && forall x, y :: r.value.HasEdge(x, y) <==> JoinedBy(edges, |edges|, x, y, directed)
    {
      var g := new GraphAdjacencyList.Empty(directed);
      var added := g.AddVertices(vertices);
      if added.Fail? {
        return Failure(added.error);
      }
      assert g.adjList.Keys == set v | v in vertices;
      added := g.AddEdges(edges);
      if added.Fail? {
        return Failure(added.error);
      }
      return Success(g);
    }

    /** The vertex loop of `__init__`, run on an empty graph. */
    method AddVertices(vertices: seq<T>) returns (r: Outcome<GraphError>)
      requires Valid() && adjList == map[]
      modifies this`adjList
      ensures Valid()
      ensures r != Pass <==> r == Fail(VertexExists)
      ensures r == Fail(VertexExists) <==> !Distinct(vertices)
      ensures r == Pass ==> (forall v :: v in adjList <==> v in vertices) && forall x, y :: !HasEdge(x, y)
    {
      for i := 0 to |vertices|
        invariant Valid()
        invariant forall v :: v in adjList <==> v in vertices[..i]
        invariant Distinct(vertices[..i])
        invariant forall x, y :: !HasEdge(x, y)
      {
        r := AddVertex(vertices[i]);
        if r.Fail? {
          var j :| 0 <= j < i && vertices[j] == vertices[i];
          assert !Apart(vertices, j, i);
          return;
        }
        assert vertices[..i + 1] == vertices[..i] + [vertices[i]];
        DistinctAppend(vertices[..i], vertices[i]);
      }
      assert vertices[..|vertices|] == vertices;
      return Pass;
    }

    /** The edge loop of `__init__`, run on a graph without edges: each edge
        must have exactly two entries. */
    method AddEdges(edges: seq<seq<T>>) returns (r: Outcome<GraphError>)
      requires Valid() && forall x, y :: !HasEdge(x, y)
      modifies this`adjList
      ensures Valid() && adjList.Keys == old(adjList.Keys)
      ensures r != Fail(VertexExists)
      ensures r == Pass <==> AllAccepted(edges, adjList.Keys, directed)
      ensures r == Pass ==> AllWellFormed(edges, |edges|, adjList.Keys)
      ensures r == Pass ==> Represents(adjList, edges, |edges|, directed)
    {
      ghost var keys := adjList.Keys;
      assert Represents(adjList, edges, 0, directed) by {
        forall x, y ensures !Edge(adjList, x, y) {
          assert !HasEdge(x, y);
        }
      }
      r := Pass;
      var i := 0;
      while i < |edges| && r == Pass
        invariant i <= |edges| && Valid() && adjList.Keys == keys && r != Fail(VertexExists)
        invariant r == Pass ==> AllWellFormed(edges, i, keys)
        invariant r == Pass ==> Represents(adjList, edges, i, directed)
        invariant r == Pass ==> forall j :: 0 <= j < i ==> AcceptedEdge(edges, j, keys, directed)
        invariant r != Pass ==> exists j :: 0 <= j < i && !AcceptedEdge(edges, j, keys, directed)
      {
        r := AddEdgeAt(edges, i);
        i := i + 1;
      }
    }

    /** One pass of the constructor's loop over the edges: the `i`-th edge
        must have two entries, then it is added. */
    method AddEdgeAt(edges: seq<seq<T>>, i: nat) returns (r: Outcome<GraphError>)
      requires Valid() && i < |edges|
      requires Represents(adjList, edges, i, directed)
      modifies this`adjList
      ensures Valid() && adjList.Keys == old(adjList.Keys)
      ensures r != Fail(VertexExists)
      ensures r == Pass <==> AcceptedEdge(edges, i, adjList.Keys, directed)
      ensures |edges[i]| != 2 ==> r == Fail(WrongLength) && adjList == old(adjList)
      ensures |edges[i]| == 2 && (edges[i][0] !in old(adjList) || edges[i][1] !in old(adjList)) ==>
        r == Fail(MissingVertex)
      ensures WellFormedEdge(edges, i, adjList.Keys) && !FirstToJoin(edges, i, directed) ==> r == Fail(EdgeExists)
      ensures r == Pass ==> WellFormedEdge(edges, i, adjList.Keys)
      ensures r == Pass ==> Represents(adjList, edges, i + 1, directed)
    {
      if |edges[i]| != 2 {
        return Fail(WrongLength);
      }
      var u, w := edges[i][0], edges[i][1];
      ghost var a := adjList;
      JoinedByIff(edges, i, u, w, directed);
      assert Edge(a, u, w) <==> !FirstToJoin(edges, i, directed);
      r := AddEdge(u, w);
      if r.Pass? {
        EdgeStep(a, adjList, edges, i, directed);
      }
    }

    method AddVertex(v: T) returns (r: Outcome<GraphError>)
      requires Valid()
      modifies this`adjList
      ensures Valid()
      ensures old(v in adjList) ==> r == Fail(VertexExists) && adjList == old(adjList)
      ensures old(v !in adjList) ==> r == Pass && adjList == old(adjList)[v := []]
      ensures forall x, y :: HasEdge(x, y) <==> old(HasEdge(x, y))
    {
      if v in adjList {
        return Fail(VertexExists);
      }
      adjList := adjList[v := []];
      return Pass;
    }

    method AddEdge(u: T, w: T) returns (r: Outcome<GraphError>)
      requires Valid()
      modifies this`adjList
      ensures Valid()
      ensures old(u !in adjList || w !in adjList) ==> r == Fail(MissingVertex) && adjList == old(adjList)
      ensures old(u in adjList && w in adjList && w in adjList[u]) ==> r == Fail(EdgeExists) && adjList == old(adjList)
      ensures old(u in adjList && w in adjList && w !in adjList[u]) ==>
        r == Pass && adjList == WithEdge(old(adjList), u, w, directed)
      ensures forall x, y :: HasEdge(x, y) <==>
        old(HasEdge(x, y)) || (r == Pass && ((x == u && y == w) || (!directed && x == w && y == u)))
    {
      if u !in adjList || w !in adjList {
        return Fail(MissingVertex);
      }
      if w in adjList[u] {
        return Fail(EdgeExists);
      }
      WithEdgeWf(adjList, directed, u, w);
      adjList := adjList[u := adjList[u] + [w]];
      if !directed {
        adjList := adjList[w := adjList[w] + [u]];
      }
      return Pass;
    }

    method RemoveEdge(u: T, w: T) returns (r: Outcome<GraphError>)
      requires Valid()
      modifies this`adjList
      ensures Valid()
      ensures old(u !in adjList || w !in adjList) ==> r == Fail(MissingVertex) && adjList == old(adjList)
      ensures old(u in adjList && w in adjList && w !in adjList[u]) ==> r == Fail(EdgeMissing) && adjList == old(adjList)
      ensures old(u in adjList && w in adjList && w in adjList[u]) ==>
        r == Pass && adjList == WithoutEdge(old(adjList), u, w, directed)
      ensures forall x, y :: HasEdge(x, y) <==>
        old(HasEdge(x, y)) && !(r == Pass && ((x == u && y == w) || (!directed && x == w && y == u)))
    {
      if u !in adjList || w !in adjList {
        return Fail(MissingVertex);
      }
      if w !in adjList[u] {
        return Fail(EdgeMissing);
      }
      WithoutEdgeWf(adjList, directed, u, w);
      adjList := adjList[u := Remove(adjList[u], w)];
      if !directed {
        adjList := adjList[w := Remove(adjList[w], u)];
      }
      return Pass;
    }

    method RemoveVertex(v: T) returns (r: Outcome<GraphError>)
      requires Valid()
      modifies this`adjList
      ensures Valid()
      ensures old(v !in adjList) ==> r == Fail(MissingVertex) && adjList == old(adjList)
      ensures old(v in adjList) ==> r == Pass && adjList == Detach(old(adjList), v)
      ensures forall x, y :: HasEdge(x, y) <==> old(HasEdge(x, y)) && x != v && y != v
    {
      if v !in adjList {
        return Fail(MissingVertex);
      }
      ghost var before := adjList;
      DetachWf(before, directed, v);
      if !directed {
        UnlinkNeighbours(v);
      } else {
        UnlinkEverywhere(v);
      }
      adjList := adjList - {v};
      assert adjList == Detach(before, v);
      return Pass;
    }

    /** The undirected half of `remove_vertex`: for each entry of the list
        of `v`, read afresh at each step as Python's `for` does over a list
        that changes under it, `v` is removed from that neighbour's list. A
        self-loop removes one of its two entries from the list being walked,
        so the walk skips the other one. */
    method UnlinkNeighbours(v: T)
      requires v in adjList && SelfPaired(adjList[v], v)
      requires forall n :: n in adjList[v] ==> n in adjList
      requires forall x :: x in adjList ==> (v in adjList[x] <==> x in adjList[v])
      modifies this`adjList
      ensures forall x :: x in adjList <==> x in old(adjList)
      ensures forall x :: x in adjList && x != v ==> adjList[x] == Discard(old(adjList)[x], v)
    {
      ghost var a0 := adjList;
      ghost var l0 := a0[v];
      ghost var p := if v in l0 then IndexOf(l0, v) else |l0|;
      if v in l0 {
        PairPositions(l0, v);
      }
      var i := 0;
      // `c` counts the entries of the original list walked so far.
      ghost var c := 0;
      while i < |adjList[v]|
        invariant forall x :: x in adjList <==> x in a0
        invariant c == (if i > p then i + 1 else i) && c <= |l0|
        invariant i > p ==> p + 1 < |l0|
        invariant adjList[v] == if i > p then RemoveAt(l0, p) else l0
        invariant forall x :: x in adjList && x != v ==>
          adjList[x] == if x in l0[..c] then Discard(a0[x], v) else a0[x]
        decreases |adjList[v]| - i
      {
        var n := adjList[v][i];
        UnlinkStep(l0, v, p, i, c, adjList[v]);
        if n != v {
          assert v in a0[n];
        }
        adjList := adjList[n := Remove(adjList[n], v)];
        i := i + 1;
        c := if n == v then c + 2 else c + 1;
      }
      assert l0[..c] == l0;
      forall x | x in adjList && x != v && x !in l0
        ensures v !in a0[x]
      {
      }
    }

    /** The directed half of `remove_vertex`: every list that holds `v`
        loses it, in whatever order the dictionary yields its lists. */
    method UnlinkEverywhere(v: T)
      requires Valid()
      modifies this`adjList
      ensures forall x :: x in adjList <==> x in old(adjList)
      ensures forall x :: x in adjList ==> adjList[x] == Discard(old(adjList)[x], v)
    {
      ghost var a0 := adjList;
      var keys := adjList.Keys;
      while keys != {}
        invariant forall x :: x in adjList <==> x in a0
        invariant keys <= adjList.Keys
        invariant forall x :: x in adjList ==> adjList[x] == if x in keys then a0[x] else Discard(a0[x], v)
        decreases keys
      {
        var x :| x in keys;
        if v in adjList[x] {
          adjList := adjList[x := Remove(adjList[x], v)];
        }
        keys := keys - {x};
      }
    }

    function ContainsVertex(v: T): (b: bool)
      reads this
      ensures b <==> v in adjList
    {
      v in adjList
    }

    function ContainsEdge(u: T, w: T): (r: Result<bool, GraphError>)
      reads this
      ensures r.Failure? <==> u !in adjList || w !in adjList
      ensures r.Failure? ==> r.error == MissingVertex
      ensures r.Success? ==> (r.value <==> HasEdge(u, w))
    {
      if u !in adjList || w !in adjList then Failure(MissingVertex)
      else Success(w in adjList[u])
    }

    /** In an undirected graph an edge is there in both directions. */
    lemma {:induction false} ContainsEdgeSymmetric(u: T, w: T)
      requires Valid() && !directed
      ensures ContainsEdge(u, w) == ContainsEdge(w, u)
    {
    }

    method ClearGraph()
      modifies this`adjList
      ensures Valid() && adjList == map[]
      ensures forall x, y :: !HasEdge(x, y)
    {
      adjList := map[];
    }
  }
}
