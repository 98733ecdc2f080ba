/** A graph kept as a square 0/1 adjacency matrix together with a map from
    each vertex to its row and column (class `GraphAdjacencyMatrix` of
    graph_adjacency_matrix.py). */
module AdjacencyMatrix {
  import opened Wrappers
  import opened Sequences
  import opened GraphEdges

  /** The ValueErrors the class raises, told apart by their cause, and the
      IndexError of an edge given with fewer than two vertices. */
  datatype GraphError = MissingVertex | VertexExists | EdgeExists | EdgeMissing | ShortEdge

  /** Every row has one entry per row. */
  ghost predicate Square(m: seq<seq<int>>) {
    forall i :: 0 <= i < |m| ==> |m[i]| == |m|
  }

  /** `index` maps the vertices one-to-one onto `0 .. |vertices| - 1`, and
      `vertices` lists them by index: a bijection and its inverse. */
  ghost predicate Bijection<T>(index: map<T, int>, vertices: seq<T>) {
    && (forall v :: v in index ==> 0 <= index[v] < |vertices| && vertices[index[v]] == v)
    && (forall i :: 0 <= i < |vertices| ==> vertices[i] in index && index[vertices[i]] == i)
  }

  ghost predicate Symmetric(m: seq<seq<int>>)
    requires Square(m)
  {
    forall i, j :: 0 <= i < |m| && 0 <= j < |m| ==> m[i][j] == m[j][i]
  }

  /** The object invariant: an n-by-n matrix for n vertices, indexed by a
      bijection, and symmetric when the graph is undirected. */
  ghost predicate Consistent<T>(m: seq<seq<int>>, index: map<T, int>, vertices: seq<T>, directed: bool) {
    && Square(m) && |m| == |vertices| && Bijection(index, vertices)
    && (!directed ==> Symmetric(m))
  }

  /** The edge from `u` to `v` that the matrix records. */
  predicate Edge<T>(m: seq<seq<int>>, index: map<T, int>, u: T, v: T) {
    && u in index && v in index
    && 0 <= index[u] < |m| && 0 <= index[v] < |m[index[u]]|
    && m[index[u]][index[v]] == 1
  }

  /** The matrix after `add_vertex`: a 0 appended to every row, then a row
      of zeros of the new width. */
  function Grow(m: seq<seq<int>>): seq<seq<int>> {
    seq(|m|, i requires 0 <= i < |m| => m[i] + [0]) + [seq(|m| + 1, _ => 0)]
  }

  /** The matrix after `remove_vertex` of the vertex at index `k`: row `k`
      popped, then entry `k` popped from every remaining row. */
  function Shrink(m: seq<seq<int>>, k: nat): seq<seq<int>>
    requires Square(m) && k < |m|
  {
    var rows := RemoveAt(m, k);
    seq(|rows|, i requires 0 <= i < |rows| => RemoveAt(rows[i], k))
  }

  /** The index map after `remove_vertex` of `v`: `v` dropped and every
      index at or above its own moved down by one. */
  function Reindex<T>(index: map<T, int>, v: T): map<T, int>
    requires v in index
  {
    map x | x in index && x != v :: if index[x] >= index[v] then index[x] - 1 else index[x]
  }

  /** The matrix after writing `x` at `[u][v]`, and at `[v][u]` as well when
      the graph is undirected. */
  function SetEdge(m: seq<seq<int>>, u: nat, v: nat, x: int, directed: bool): seq<seq<int>>
    requires Square(m) && u < |m| && v < |m|
  {
    var m' := m[u := m[u][v := x]];
    if directed then m' else m'[v := m'[v][u := x]]
  }

  /** The `j`-th edge is one the constructor adds after the edges before
      it: at least two entries, the first two vertices, joining a pair not
      joined yet. */
  ghost predicate AcceptedEdge<T>(edges: seq<seq<T>>, j: nat, vertices: seq<T>, directed: bool)
    requires j < |edges|
  {
    |edges[j]| >= 2 && edges[j][0] in vertices && edges[j][1] in vertices && FirstToJoin(edges, j, directed)
  }

  /** The constructor adds every edge: each one is accepted in turn. */
  ghost predicate AllAccepted<T>(edges: seq<seq<T>>, vertices: seq<T>, directed: bool) {
    forall j :: 0 <= j < |edges| ==> AcceptedEdge(edges, j, vertices, directed)
  }

  /** Adding a vertex keeps the invariant, gives the vertex the next index
      and adds no edge. */
  lemma {:induction false} GrowConsistent<T>(m: seq<seq<int>>, index: map<T, int>, vertices: seq<T>, directed: bool, v: T)
    requires Consistent(m, index, vertices, directed) && v !in index
    ensures Consistent(Grow(m), index[v := |m|], vertices + [v], directed)
    ensures forall x, y :: Edge(Grow(m), index[v := |m|], x, y) <==> Edge(m, index, x, y)
  {
    var m', index', vertices' := Grow(m), index[v := |m|], vertices + [v];
    assert forall i :: 0 <= i < |m| ==> m'[i] == m[i] + [0];
    forall i | 0 <= i < |vertices'|
      ensures vertices'[i] in index' && index'[vertices'[i]] == i
    {
      if i < |m| {
        assert vertices'[i] == vertices[i] != v;
      }
    }
    forall x, y
      ensures Edge(m', index', x, y) <==> Edge(m, index, x, y)
    {
      if x != v && y != v && x in index && y in index {
        assert m'[index[x]][index[y]] == m[index[x]][index[y]];
      }
    }
  }

  /** Removing a vertex keeps the invariant and keeps exactly the edges
      between the remaining vertices. */
  lemma {:induction false} ShrinkConsistent<T>(m: seq<seq<int>>, index: map<T, int>, vertices: seq<T>, directed: bool, v: T)
    requires Consistent(m, index, vertices, directed) && v in index
    ensures Consistent(Shrink(m, index[v]), Reindex(index, v), RemoveAt(vertices, index[v]), directed)
    ensures forall x, y :: Edge(Shrink(m, index[v]), Reindex(index, v), x, y) <==>
      x != v && y != v && Edge(m, index, x, y)
  {
    var k := index[v];
    var m', index', vertices' := Shrink(m, k), Reindex(index, v), RemoveAt(vertices, k);
    assert forall i, j :: 0 <= i < |m'| && 0 <= j < |m'| ==>
      m'[i][j] == m[if i < k then i else i + 1][if j < k then j else j + 1];
    forall x | x in index'
      ensures 0 <= index'[x] < |vertices'| && vertices'[index'[x]] == x
    {
      assert vertices[index[x]] == x != v;
    }
    forall i | 0 <= i < |vertices'|
      ensures vertices'[i] in index' && index'[vertices'[i]] == i
    {
      var i' := if i < k then i else i + 1;
      assert vertices'[i] == vertices[i'] && index[vertices[i']] == i';
    }
    forall x, y
      ensures Edge(m', index', x, y) <==> x != v && y != v && Edge(m, index, x, y)
    {
      if x != v && y != v && x in index && y in index {
        assert vertices[index[x]] == x && vertices[index[y]] == y;
        assert m'[index'[x]][index'[y]] == m[index[x]][index[y]];
      }
    }
  }

  /** Writing `x` at an edge's cells keeps the invariant and changes that
      edge, and its reverse when undirected, and no other. */
  lemma {:induction false} SetEdgeConsistent<T>(m: seq<seq<int>>, index: map<T, int>, vertices: seq<T>, directed: bool,
                             u: T, v: T, x: int)
    requires Consistent(m, index, vertices, directed) && u in index && v in index
    ensures Consistent(SetEdge(m, index[u], index[v], x, directed), index, vertices, directed)
    ensures forall a, b :: Edge(SetEdge(m, index[u], index[v], x, directed), index, a, b) <==>
      if (a == u && b == v) || (!directed && a == v && b == u) then x == 1 else Edge(m, index, a, b)
  {
    var m' := SetEdge(m, index[u], index[v], x, directed);
    forall a, b | a in index && b in index
      ensures m'[index[a]][index[b]] ==
        if (a == u && b == v) || (!directed && a == v && b == u) then x else m[index[a]][index[b]]
    {
      assert vertices[index[a]] == a && vertices[index[b]] == b;
      assert vertices[index[u]] == u && vertices[index[v]] == v;
    }
  }

  class GraphAdjacencyMatrix<T(==, !new)> {
    const directed: bool
    var vertexToIndex: map<T, int>
    var adjMatrix: seq<seq<int>>
    /** The vertices by index, the inverse of `vertexToIndex`. */
    ghost var vertices: seq<T>

    ghost predicate Valid()
      reads this
    {
      Consistent(adjMatrix, vertexToIndex, vertices, directed)
    }

    /** The edge relation the matrix stands for. */
    ghost predicate HasEdge(u: T, v: T)
      reads this
    {
      Edge(adjMatrix, vertexToIndex, u, v)
    }

    /** An empty graph: the state before `__init__` adds anything. */
    constructor Empty(directed: bool)
      ensures Valid() && this.directed == directed
      ensures vertexToIndex == map[] && adjMatrix == [] && vertices == []
    {
      this.directed := directed;
      vertexToIndex := map[];
      adjMatrix := [];
      vertices := [];
    }

    /** `__init__`: every vertex added, then every edge, stopping at the
        first failure. */
    static method New(vertices: seq<T>, edges: seq<seq<T>>, directed: bool)
      returns (r: Result<GraphAdjacencyMatrix<T>, GraphError>)
      ensures r == Failure(VertexExists) <==> !Distinct(vertices)
      ensures r.Success? <==> Distinct(vertices) && AllAccepted(edges, vertices, directed)
      ensures (exists j :: 0 <= j < |edges| && (|edges[j]| < 2 || edges[j][0] !in vertices || edges[j][1] !in vertices)) ==>
        r.Failure?
      ensures r.Success? ==>
        && fresh(r.value) && r.value.Valid() && r.value.directed == directed
        && r.value.vertices == vertices
        && forall x, y :: r.value.HasEdge(x, y) <==> exists j :: 0 <= j < |edges| && Joins(edges[j], x, y, directed)
    {
      var g := new GraphAdjacencyMatrix.Empty(directed);
      for i := 0 to |vertices|
        invariant g.Valid() && g.directed == directed && g.vertices == vertices[..i]
        invariant Distinct(vertices[..i])
        invariant forall x, y :: !g.HasEdge(x, y)
      {
        var added := g.AddVertex(vertices[i]);
        if added.Fail? {
          assert vertices[i] in vertices[..i];
          var j :| 0 <= j < i && vertices[j] == vertices[i];
          assert !Apart(vertices, j, i);
          return Failure(added.error);
        }
        assert vertices[..i + 1] == vertices[..i] + [vertices[i]];
        DistinctAppend(vertices[..i], vertices[i]);
      }
      assert vertices[..|vertices|] == vertices;
      for i := 0 to |edges|
        invariant g.Valid() && g.directed == directed && g.vertices == vertices && Distinct(vertices)
        invariant forall j :: 0 <= j < i ==> |edges[j]| >= 2 && edges[j][0] in vertices && edges[j][1] in vertices
        invariant forall x, y :: g.HasEdge(x, y) <==> exists j :: 0 <= j < i && Joins(edges[j], x, y, directed)
        invariant forall j :: 0 <= j < i ==> AcceptedEdge(edges, j, vertices, directed)
      {
        if |edges[i]| < 2 {
          assert !AcceptedEdge(edges, i, vertices, directed);
          return Failure(ShortEdge);
        }
        ghost var joined := g.HasEdge(edges[i][0], edges[i][1]);
        var added := g.AddEdge(edges[i][0], edges[i][1]);
        if added.Fail? {
          if joined {
            var k :| 0 <= k < i && Joins(edges[k], edges[i][0], edges[i][1], directed);
            assert !FirstToJoin(edges, i, directed);
          }
          assert !AcceptedEdge(edges, i, vertices, directed);
          return Failure(added.error);
        }
        forall x, y
          ensures g.HasEdge(x, y) <==> exists j :: 0 <= j < i + 1 && Joins(edges[j], x, y, directed)
        {
          if Joins(edges[i], x, y, directed) {
            assert 0 <= i < i + 1;
          }
        }
      }
      return Success(g);
    }

    /** `_validate_edge`: both ends must be vertices of the graph. */
    function ValidateEdge(u: T, v: T): (r: Outcome<GraphError>)
      requires Valid()
      reads this
      ensures r == Pass <==> u in vertices && v in vertices
      ensures r.Fail? ==> r.error == MissingVertex
    {
      if ContainsVertex(u) && ContainsVertex(v) then Pass else Fail(MissingVertex)
    }

    function ContainsVertex(v: T): (b: bool)
      requires Valid()
      reads this
      ensures b <==> v in vertices
    {
      v in vertexToIndex
    }

    function ContainsEdge(u: T, v: T): (r: Result<bool, GraphError>)
      requires Valid()
      reads this
      ensures r.Failure? <==> u !in vertices || v !in vertices
      ensures r.Failure? ==> r.error == MissingVertex
      ensures r.Success? ==> (r.value <==> HasEdge(u, v))
    {
      if ValidateEdge(u, v).Fail? then Failure(MissingVertex)
      else Success(adjMatrix[vertexToIndex[u]][vertexToIndex[v]] == 1)
    }

    /** In an undirected graph an edge is there in both directions. */
    lemma {:induction false} ContainsEdgeSymmetric(u: T, v: T)
      requires Valid() && !directed
      ensures ContainsEdge(u, v) == ContainsEdge(v, u)
    {
      if u in vertexToIndex && v in vertexToIndex {
        assert adjMatrix[vertexToIndex[u]][vertexToIndex[v]] == adjMatrix[vertexToIndex[v]][vertexToIndex[u]];
      }
    }

    method AddEdge(u: T, v: T) returns (r: Outcome<GraphError>)
      requires Valid()
      modifies this`adjMatrix
      ensures Valid()
      ensures old(u !in vertices || v !in vertices) ==> r == Fail(MissingVertex) && adjMatrix == old(adjMatrix)
      ensures old(u in vertices && v in vertices && HasEdge(u, v)) ==> r == Fail(EdgeExists) && adjMatrix == old(adjMatrix)
      ensures old(u in vertices && v in vertices && !HasEdge(u, v)) ==>
        r == Pass && adjMatrix == SetEdge(old(adjMatrix), vertexToIndex[u], vertexToIndex[v], 1, directed)
      ensures forall x, y :: HasEdge(x, y) <==>
        old(HasEdge(x, y)) || (r == Pass && ((x == u && y == v) || (!directed && x == v && y == u)))
    {
      r := ValidateEdge(u, v);
      if r.Fail? {
        return;
      }
      if ContainsEdge(u, v) == Success(true) {
        return Fail(EdgeExists);
      }
      SetEdgeConsistent(adjMatrix, vertexToIndex, vertices, directed, u, v, 1);
      var a, b := vertexToIndex[u], vertexToIndex[v];
      adjMatrix := adjMatrix[a := adjMatrix[a][b := 1]];
      if !directed {
        adjMatrix := adjMatrix[b := adjMatrix[b][a := 1]];
      }
    }

    method RemoveEdge(u: T, v: T) returns (r: Outcome<GraphError>)
      requires Valid()
      modifies this`adjMatrix
      ensures Valid()
      ensures old(u !in vertices || v !in vertices) ==> r == Fail(MissingVertex) && adjMatrix == old(adjMatrix)
      ensures old(u in vertices && v in vertices && !HasEdge(u, v)) ==> r == Fail(EdgeMissing) && adjMatrix == old(adjMatrix)
      ensures old(u in vertices && v in vertices && HasEdge(u, v)) ==>
        r == Pass && adjMatrix == SetEdge(old(adjMatrix), vertexToIndex[u], vertexToIndex[v], 0, directed)
      ensures forall x, y :: HasEdge(x, y) <==>
        old(HasEdge(x, y)) && !(r == Pass && ((x == u && y == v) || (!directed && x == v && y == u)))
    {
      r := ValidateEdge(u, v);
      if r.Fail? {
        return;
      }
      if ContainsEdge(u, v) == Success(false) {
        return Fail(EdgeMissing);
      }
      SetEdgeConsistent(adjMatrix, vertexToIndex, vertices, directed, u, v, 0);
      var a, b := vertexToIndex[u], vertexToIndex[v];
      adjMatrix := adjMatrix[a := adjMatrix[a][b := 0]];
      if !directed {
        adjMatrix := adjMatrix[b := adjMatrix[b][a := 0]];
      }
    }

    method AddVertex(v: T) returns (r: Outcome<GraphError>)
      requires Valid()
      modifies this`adjMatrix, this`vertexToIndex, this`vertices
      ensures Valid()
      ensures old(v in vertices) ==> r == Fail(VertexExists) && unchanged(this)
      ensures old(v !in vertices) ==>
        && r == Pass && vertices == old(vertices) + [v]
        && vertexToIndex == old(vertexToIndex)[v := old(|adjMatrix|)]
        && adjMatrix == Grow(old(adjMatrix))
      ensures forall x, y :: HasEdge(x, y) <==> old(HasEdge(x, y))
    {
      if ContainsVertex(v) {
        return Fail(VertexExists);
      }
      ghost var m := adjMatrix;
      GrowConsistent(m, vertexToIndex, vertices, directed, v);
      var i := 0;
      while i < |adjMatrix|
        invariant |adjMatrix| == |m| && 0 <= i <= |m|
        invariant forall j :: 0 <= j < i ==> adjMatrix[j] == m[j] + [0]
        invariant forall j :: i <= j < |m| ==> adjMatrix[j] == m[j]
        invariant vertexToIndex == old(vertexToIndex) && vertices == old(vertices)
      {
        adjMatrix := adjMatrix[i := adjMatrix[i] + [0]];
        i := i + 1;
      }
      adjMatrix := adjMatrix + [seq(|adjMatrix| + 1, _ => 0)];
      vertexToIndex := vertexToIndex[v := |adjMatrix| - 1];
      vertices := vertices + [v];
      assert adjMatrix == Grow(m);
      return Pass;
    }

    method RemoveVertex(v: T) returns (r: Outcome<GraphError>)
      requires Valid()
      modifies this`adjMatrix, this`vertexToIndex, this`vertices
      ensures Valid()
      ensures old(v !in vertices) ==> r == Fail(MissingVertex) && unchanged(this)
      ensures old(v in vertices) ==>
        && r == Pass
        && vertices == RemoveAt(old(vertices), old(vertexToIndex[v]))
        && vertexToIndex == Reindex(old(vertexToIndex), v)
        && adjMatrix == Shrink(old(adjMatrix), old(vertexToIndex[v]))
      ensures forall x, y :: HasEdge(x, y) <==> old(HasEdge(x, y)) && x != v && y != v
    {
      if !ContainsVertex(v) {
        return Fail(MissingVertex);
      }
      ghost var m, index := adjMatrix, vertexToIndex;
      var start := vertexToIndex[v];
      ShrinkConsistent(m, index, vertices, directed, v);
      adjMatrix := RemoveAt(adjMatrix, start);
      ghost var rows := adjMatrix;
      var i := 0;
      while i < |adjMatrix|
        invariant |adjMatrix| == |rows| == |m| - 1 && 0 <= i <= |rows|
        invariant forall j :: 0 <= j < |rows| ==> |rows[j]| == |m| > start
        invariant forall j :: 0 <= j < i ==> adjMatrix[j] == RemoveAt(rows[j], start)
        invariant forall j :: i <= j < |rows| ==> adjMatrix[j] == rows[j]
        invariant vertexToIndex == index && vertices == old(vertices)
      {
        adjMatrix := adjMatrix[i := RemoveAt(adjMatrix[i], start)];
        i := i + 1;
      }
      vertexToIndex := vertexToIndex - {v};
      var keys := vertexToIndex.Keys;
      while keys != {}
        invariant vertexToIndex.Keys == index.Keys - {v} && keys <= vertexToIndex.Keys
        invariant forall x :: x in vertexToIndex ==>
          vertexToIndex[x] == if x in keys || index[x] < start then index[x] else index[x] - 1
        invariant adjMatrix == Shrink(m, start) && vertices == old(vertices)
        decreases keys
      {
        var x :| x in keys;
        if vertexToIndex[x] >= start {
          vertexToIndex := vertexToIndex[x := vertexToIndex[x] - 1];
        }
        keys := keys - {x};
      }
      assert vertexToIndex == Reindex(index, v);
      vertices := RemoveAt(vertices, start);
      return Pass;
    }

    method ClearGraph()
      modifies this`adjMatrix, this`vertexToIndex, this`vertices
      ensures Valid() && vertices == [] && vertexToIndex == map[] && adjMatrix == []
      ensures forall x, y :: !HasEdge(x, y)
    {
      vertexToIndex := map[];
      adjMatrix := [];
      vertices := [];
    }
  }
}
