# A verified model of six in-memory components

This project models six sequential Python components in Dafny and proves
properties of the model:

- **Two-phase simplex tableau** (`simplex.py`, class `Tableau`). It validates
  the tableau and builds the column titles. It picks the entering column by a
  signed argmax over the objective row and the leaving row by the first
  minimum-ratio row. It pivots, drops the artificial columns and the phase-one
  row at the stage change, and reads the basic variables off the final
  tableau. The tableau is a sequence of rows of exact reals plus its column
  count. The active objective is the last one in the list, as in the code.
- **Dense matrix** (`matrix_class.py`, class `Matrix`). It covers shape checks,
  the identity, and the recursive determinant with its minors and cofactors.
  It also has the adjugate, the inverse, elementwise and matrix arithmetic,
  integer powers, and in-place row and column insertion. The determinant's
  general case is kept exactly as written: the sum of `rows[0][i]` times
  `cofactor(i, 0)`. `MatrixClass.DeterminantQuirk` shows that this gives -3
  on a unit upper-triangular 3x3 matrix whose true determinant is 1.
  `MatrixClass.DeterminantOfIdentity` shows it still gives 1 on every
  identity matrix.
- **LRU cache** (`lru_cache.py`). It is a doubly linked list of node objects
  bounded by two sentinel nodes, plus a key-to-node map. The list carries a
  ghost sequence of its nodes, and the cache carries a ghost sequence of keys
  from least to most recently used plus a ghost map of the values. Every
  operation is proved against those sequences.
- **Graph as adjacency matrix** (`graph_adjacency_matrix.py`). It keeps a
  square 0/1 matrix and a vertex-to-index map, kept a bijection by a ghost
  sequence of vertices. Every operation is specified by its effect on the
  edge relation the matrix stands for.
- **Graph as adjacency list** (`aA-control.py`, class `GraphAdjacencyList`).
  It keeps a map from each vertex to its list of neighbours. The invariant is
  that neighbour lists hold known vertices, undirected lists are symmetric,
  and no list repeats an entry. There is one exception: an undirected
  self-loop `add_edge(v, v)` appends `v` to its own list twice, and the
  invariant allows exactly that adjacent pair.
- **Multi-level feedback queue** (`multi_level_feedback_queue.py`). Processes
  are objects with mutable time fields. The queues are sequences of those
  objects. One round-robin or first-come-first-served pass is specified by
  two pure functions over the processes' times: `Run` gives each process's
  times and the clock after its turn, and `Pick` says which processes are
  preempted and which finish.

  Every turn keeps `waiting - burst - completion` unchanged. Because
  `completion_time` starts at 0, a finished process has waited its
  completion time minus its original burst (`FinishedTimes`). The code
  therefore counts waiting from time 0, not from the arrival time.

Python exceptions become `Failure`/`Fail` values that name the cause. The
three modules `Wrappers`, `Sequences` and `GraphEdges` hold the shared
Option/Result types, sequence lemmas and the edge-list reading used by both
graph constructors.

Several methods have no counterpart of their own in the source: they split
one source method into steps, each with its own contract.

| helper methods | source method they split |
|---|---|
| `Round`, `PivotOnLeavingRow` | `run_simplex` |
| `Touch`, `Refresh`, `Evict`, `Insert` | `get` and `put` |
| `Splice` | `remove` |
| `AddVertices`, `AddEdges`, `AddEdgeAt` | the list graph's `__init__` |
| `UnlinkNeighbours`, `UnlinkEverywhere` | `remove_vertex` |
| `Admit`, `RunToEnd`, `RunSlice`, `Serve` | the FCFS and round-robin loop bodies |
| `Level` | one level of `multi_level_feedback_queue` |

Some functions are specifications with no contract of their own and so no
row below: `Det`, `ExpansionSum`, `Cofactor`, `Minor` and `Dot` in the
matrix module, and `Interpreted`, `Simulate` and `AllRoundsRun` in the
simplex module. The lemmas about them have rows.

## Model

| member | source | states |
|---|---|---|
| Simplex.DecimalRoundTrip | simplex.py:68-71 | reading back the digits that `f"x{i+1}"` writes gives the number again |
| Simplex.DecimalStringInjective | simplex.py:68-71 | different column numbers give different digit strings |
| Simplex.ColTitlesDistinct | simplex.py:60-73 | the titles are x1..x{n_vars}, s1..s{n_slack} and then "RHS"; a negative count gives none, as range() does; all titles are pairwise distinct and none is "P", so the result dictionary's keys never collide |
| Simplex.VarTitlesAreKeys | simplex.py:160-166 | the first n_vars titles exist, are pairwise distinct and differ from "P" |
| Simplex.FirstArgMax | simplex.py:84 | the index argmax returns: a maximum of the row, and the first one |
| Simplex.FirstMinRatio | simplex.py:90-95 | no row exactly when no divisor is positive; otherwise the first row with a positive divisor whose quotient is least among such rows |
| Simplex.PivotSearch | simplex.py:75-96 | a successful search returns a row and a column inside the tableau |
| Simplex.AtOptimumIffNoImprovingColumn | simplex.py:82-88 | the stop test holds iff no column of the signed objective row is positive |
| Simplex.PivotSearchChoosesPivot | simplex.py:75-96 | away from the optimum, the column is the first argmax of the signed objective row, with a positive value, and the row is the ratio-test row: a constraint row with a positive entry in that column and the least ratio |
| Simplex.PivotedEntries | simplex.py:109-114 | after a pivot the pivot column is the unit vector of the pivot row; the pivot row is divided by the pivot; every other row i is old row i minus old[i][c] times the new pivot row |
| Simplex.PivotedRhsNonNegative | simplex.py:90-114 | pivoting on the ratio-test row leaves one given constraint row's RHS non-negative |
| Simplex.PivotKeepsRhsNonNegative | simplex.py:42-43 | pivoting on the row the ratio test picks keeps every constraint RHS non-negative, given the constructor's check |
| Simplex.EliminatedRhsNonNegative | simplex.py:113 | the elimination step cannot make a RHS negative when the pivot row has the least ratio |
| Simplex.ReducedKeepsEntries | simplex.py:127-129 | the stage change drops row 0 and the n_artificial_vars columns before RHS, and keeps every other entry in order |
| Simplex.ReducedKeepsRhsNonNegative | simplex.py:127-129 | dropping the phase-one row and artificial columns keeps every constraint RHS non-negative |
| Simplex.NonzeroRows | simplex.py:162-163 | np.nonzero of a column: exactly the rows whose entry is nonzero, in increasing order |
| Simplex.AssembleKeys | simplex.py:160-166 | the result holds "P" and no key other than "P" and the variable titles |
| Simplex.AssembleAt | simplex.py:160-166 | with distinct titles, "P" maps to its value and a title is present iff its column gave a value, which it then maps to |
| Simplex.InterpretationAssembles | simplex.py:160-166 | the interpretation is P = abs(tableau[0][-1]) plus one entry per basic variable column |
| Simplex.InterpretationCorrect | simplex.py:153-167 | P is abs(tableau[0][-1]); x{i+1} is present iff column i has exactly one nonzero entry and it is 1, and its value is that row's RHS |
| Simplex.Tableau.Init | simplex.py:50-58 | the fields as the constructor sets them: n_stages 2 iff artificial variables exist, n_slack = cols - n_vars - n_artificial - 1, objectives ["max"] or ["min","max"] |
| Simplex.Tableau.New | simplex.py:26-58 | the checks in the code's order: non-float64 dtype, then a negative RHS, then n_vars < 2 or n_artificial_vars < 0; on success the fields as the constructor sets them and the object invariant |
| Simplex.Tableau.GenerateColTitles | simplex.py:60-73 | the titles are ColTitles, whose distinctness ColTitlesDistinct proves |
| Simplex.Tableau.FindPivot | simplex.py:75-96 | the result is PivotSearch of the tableau and the active objective; stop_iter is set exactly at the optimum; the tableau is untouched |
| Simplex.Tableau.Pivot | simplex.py:98-115 | the row loop leaves exactly Pivoted(old tableau) and keeps the shape |
| Simplex.Tableau.ChangeStage | simplex.py:117-134 | pops the last objective; with one objective left nothing else changes; with two it drops the artificial columns and row 0 and resets n_rows, n_stages, n_artificial_vars and stop_iter |
| Simplex.Tableau.InterpretTableau | simplex.py:153-167 | the result is the interpretation of the current tableau, with no state changed, or the error the indexing raises |
| Simplex.Tableau.PivotOnLeavingRow | simplex.py:146-150 | a pivot on the ratio-test row keeps the object invariant, including every constraint RHS >= 0 |
| Simplex.RoundStep | simplex.py:144-150 | a successful pass leaves a well-shaped tableau state; the function itself is the specification of one pass (find_pivot's error ends it, else change_stage when stop_iter is set or at the optimum, else a pivot), which Round is proved to perform |
| Simplex.StageChanged | simplex.py:117-134 | a successful stage change leaves a well-shaped state; the function specifies change_stage on a state (pop the last objective; if one is still left, drop row 0 and the artificial columns and reset the counts) |
| Simplex.RoundStepObjectives | simplex.py:144-150 | a successful pass either pivots, keeping the objective stack, the width, the height and stop_iter false, or pops the active objective |
| Simplex.SimulateUnfolds | simplex.py:142-150 | one iteration of the loop: with no objective left it returns the interpretation, a failed pass ends the run with that error, and a successful one continues with one iteration fewer |
| Simplex.InterpretationNonEmpty | simplex.py:160 | the interpretation always holds "P" |
| Simplex.InterpretedNotEmpty | simplex.py:153-167 | interpret_tableau never returns the empty map: it either fails or holds "P" |
| Simplex.EmptyResultIffAllRoundsRun | simplex.py:136-151 | run_simplex returns {} exactly when every one of its iterations started with an objective left and its pass succeeded, so {} means the iteration budget ran out |
| Simplex.Tableau.Round | simplex.py:144-150 | one loop pass: it fails exactly when RoundStep of the old state fails, with that error; otherwise the new state is RoundStep of the old one; the invariant and the titles are kept |
| Simplex.Tableau.RunSimplex | simplex.py:136-151 | the result is Simulate of the starting state with 100 iterations, so the loop runs the rounds RoundStep describes; a non-empty map is the interpretation of the final tableau with no objectives left |
| MatrixClass.Identity | matrix_class.py:51-55 | an n x n square matrix |
| MatrixClass.Submatrix | matrix_class.py:84-89 | deleting a row and a column of a square matrix leaves a square matrix one smaller whose entry (i, j) is the old entry with row and column indices shifted past r and c |
| MatrixClass.Determinant | matrix_class.py:57-69 | None exactly for a non-square matrix; 1 for the 0 x 0 matrix |
| MatrixClass.SubmatrixOfIdentity | matrix_class.py:84-89 | deleting row 0 and column 0 of the identity gives the smaller identity |
| MatrixClass.IdentityExpansionSum | matrix_class.py:69 | on the identity the row-0 sum reduces to its first term |
| MatrixClass.DeterminantOfIdentity | matrix_class.py:57-89 | the determinant as written is 1 on every identity matrix |
| MatrixClass.DeterminantQuirk | matrix_class.py:69 | the sum as written gives -3 on the unit upper-triangular matrix [[1,2,0],[0,1,0],[0,0,1]] |
| MatrixClass.IsInvertable | matrix_class.py:71-75 | bool(determinant()): true exactly for a square matrix with a nonzero determinant (None and 0 are both false) |
| MatrixClass.Adjugate | matrix_class.py:91-95 | an n x n matrix whose entry (i, j) is cofactor(j, i) |
| MatrixClass.Inverse | matrix_class.py:97-104 | None exactly when the matrix is not invertable; otherwise a square matrix of the same order whose entry (i, j) is cofactor(j, i) / det |
| MatrixClass.CofactorOfSmallIdentity | matrix_class.py:77-89 | up to order 3 a cofactor of the identity is 1 on the diagonal and 0 off it |
| MatrixClass.AdjugateOfSmallIdentity | matrix_class.py:91-95 | up to order 3 the adjugate of the identity is the identity |
| MatrixClass.InverseOfSmallIdentity | matrix_class.py:97-104 | up to order 3 the inverse of the identity is the identity |
| MatrixClass.InverseOfIdentityQuirk | matrix_class.py:69-104 | with the determinant as written, the inverse of the 4 x 4 identity has -1 at (2, 0) |
| MatrixClass.DotOfPairs | matrix_class.py:196-200 | the dot product of two pairs is x0*y0 + x1*y1 |
| MatrixClass.DotOfTriples | matrix_class.py:196-200 | the dot product of two triples is the sum of the three products |
| MatrixClass.CofactorsOfTwoByTwo | matrix_class.py:77-89 | the cofactors of a 2 x 2 matrix are the opposite diagonal entry, negated off the diagonal |
| MatrixClass.AdjugateOfTwoByTwo | matrix_class.py:91-95 | the adjugate of [[a, b], [c, d]] is [[d, -b], [-c, a]] |
| MatrixClass.ProductOfPairs | matrix_class.py:163-174 | a 2 x 2 product succeeds and its entries are row-times-column sums of two terms |
| MatrixClass.ProductsOfTwoByTwo | matrix_class.py:97-104 | [[a, b], [c, d]] and [[d, -b], [-c, a]] scaled by 1/(ad - bc) multiply to the identity in both orders |
| MatrixClass.InverseScalesAdjugate | matrix_class.py:97-104 | an invertable matrix is square with nonzero determinant, and its inverse is its adjugate scaled by 1/det |
| MatrixClass.InverseOfSmallMatrix | matrix_class.py:97-104 | for orders 1 and 2, where the determinant as written is the true one, m * inverse(m) and inverse(m) * m are both the identity |
| MatrixClass.InverseOfTwoByTwo | matrix_class.py:97-104 | the same for order 2 |
| MatrixClass.InverseOfOneByOne | matrix_class.py:97-104 | the inverse of [[x]] is [[1/x]], and both products are the identity |
| MatrixClass.AdjugateOfUnitUpperTriangular | matrix_class.py:91-95 | column 0 of the adjugate of [[1,2,0],[0,1,0],[0,0,1]] is 1, 0, 0 |
| MatrixClass.InverseOfUnitUpperTriangular | matrix_class.py:69-104 | column 0 of its inverse is -1/3, 0, 0, because of the determinant as written |
| MatrixClass.InverseQuirk | matrix_class.py:69-104 | so that matrix times its inverse has -1/3 at (0, 0): from order 3 on the inverse is not an inverse |
| MatrixClass.Neg | matrix_class.py:141-145 | same shape, every entry negated |
| MatrixClass.Scale | matrix_class.py:167-168 | same shape, every entry times the scalar |
| MatrixClass.ScaleByOne | matrix_class.py:167-168 | multiplying by 1 gives the matrix back |
| MatrixClass.ScaleRectangular | matrix_class.py:167-168 | scaling keeps the matrix rectangular with the same order |
| MatrixClass.ScaleDistributesOverAdd | matrix_class.py:147-168 | scaling distributes over +: (a + b) * s equals a * s + b * s, and both fail together on an order mismatch |
| MatrixClass.Add | matrix_class.py:147-153 | fails exactly on an order mismatch; otherwise the entrywise sum |
| MatrixClass.Sub | matrix_class.py:155-161 | fails exactly on an order mismatch; otherwise the entrywise difference |
| MatrixClass.NegInvolutive | matrix_class.py:141-145 | negating twice gives the matrix back |
| MatrixClass.SubIsAddNeg | matrix_class.py:141-161 | a - b equals a + (-b), failures included |
| MatrixClass.AddCommutes | matrix_class.py:147-153 | a + b equals b + a, failures included |
| MatrixClass.DotUnitRight | matrix_class.py:196-200 | the dot product with the j-th unit vector picks entry j |
| MatrixClass.DotUnitLeft | matrix_class.py:196-200 | the same with the unit vector on the left |
| MatrixClass.DotTruncates | matrix_class.py:196-200 | zip stops at the shorter vector: entries past its length do not count |
| MatrixClass.DotCommutes | matrix_class.py:196-200 | the dot product is symmetric |
| MatrixClass.Column | matrix_class.py:172 | column j of zip(*rows): entry k is rows[k][j] |
| MatrixClass.Mul | matrix_class.py:163-174 | fails exactly when cols(a) != rows(b); otherwise a rows(a) x cols(b) matrix whose (i, j) entry is row i dot column j |
| MatrixClass.MulIdentityRight | matrix_class.py:163-174 | a times the identity is a |
| MatrixClass.MulIdentityLeft | matrix_class.py:163-174 | the identity times b is b |
| MatrixClass.Power | matrix_class.py:190-193 | the n-fold product of a square matrix is square of the same order |
| MatrixClass.PowerOfIdentity | matrix_class.py:190-193 | every positive power of the identity is the identity |
| MatrixClass.Pow | matrix_class.py:176-193 | non-square fails; exponent 0 gives the identity; a negative exponent gives the inverse's power, or fails when not invertable; a positive exponent gives the n-fold product, accumulated in the loop |
| MatrixClass.InsertIndex | matrix_class.py:116 | list.insert's index: a position in range is used as is, a negative one counts from the end, and both ends clamp |
| MatrixClass.InsertThenRemove | matrix_class.py:113-127 | the inserted item sits at that index, and removing it gives the old list back, so old entries keep their order |
| MatrixClass.InsertAtEnd | matrix_class.py:113-116 | inserting at the end is appending |
| MatrixClass.InsertColumn | matrix_class.py:127 | column[i] is inserted into row i at the position |
| MatrixClass.AppendColumn | matrix_class.py:125 | appending a column is inserting it at the end of every row |
| MatrixClass.Matrix.New | matrix_class.py:14-34 | fails exactly on rows of unequal length; an empty list gives the matrix without rows |
| MatrixClass.Matrix.AddRow | matrix_class.py:107-116 | fails exactly when the row length differs from num_columns, leaving the rows; otherwise the row is appended or inserted as list.insert does |
| MatrixClass.Matrix.AddColumn | matrix_class.py:118-127 | fails exactly when the column length differs from num_rows, leaving the rows; otherwise column[i] is appended to or inserted into row i |
| LruCache.MoveToEnd | lru_cache.py:101-103 | moving a present key to the most recently used end keeps the length and puts it last |
| LruCache.MoveToEndElements | lru_cache.py:101-103 | moving an entry to the end keeps the same elements, and keeps them distinct |
| LruCache.Node.constructor | lru_cache.py:29-34 | a node holds its key and value and is linked to nothing |
| LruCache.DoubleLinkedList.constructor | lru_cache.py:43-47 | head.next is rear and rear.prev is head: the list is empty |
| LruCache.DoubleLinkedList.Linked | lru_cache.py:58-75 | the invariant links every node to its neighbours in the node sequence, with the sentinels at the ends |
| LruCache.DoubleLinkedList.Add | lru_cache.py:58-64 | the node is linked just before rear, at the end of the node sequence; other nodes keep their values |
| LruCache.DoubleLinkedList.Remove | lru_cache.py:66-75 | a node with a missing link gives None and changes nothing; otherwise it is spliced out, its links cleared, and it is returned |
| LruCache.DoubleLinkedList.Splice | lru_cache.py:71-74 | the four pointer writes remove exactly that node from the sequence |
| LruCache.IndexedLookup | lru_cache.py:99-101 | a cached key is in the recency order at the position of its node |
| LruCache.IndexedFirst | lru_cache.py:116-120 | head.next holds the least recently used key, and that key is cached |
| LruCache.IndexedMove | lru_cache.py:102-103 | moving a node to the end moves its key to the end of the order |
| LruCache.IndexedEvict | lru_cache.py:119-120 | dropping the first node and its key keeps the key-node correspondence |
| LruCache.IndexedAppend | lru_cache.py:122-123 | adding a new key's node at the end keeps the key-node correspondence |
| LruCache.LRUCache.constructor | lru_cache.py:81-87 | an empty cache with zero counters |
| LruCache.LRUCache.Sizes | lru_cache.py:84-87 | the keys in the map and in the list agree, appear once each, and number num_keys |
| LruCache.LRUCache.Contains | lru_cache.py:95-96 | true exactly for cached keys |
| LruCache.LRUCache.Get | lru_cache.py:98-106 | a hit counts a hit, returns the value and makes the key most recently used; a miss counts a miss, returns None and changes nothing else |
| LruCache.LRUCache.Touch | lru_cache.py:102-103 | remove then add moves the key to the most recently used end |
| LruCache.LRUCache.Refresh | lru_cache.py:109-113 | an existing key takes the new value and becomes most recently used; num_keys is unchanged |
| LruCache.LRUCache.Evict | lru_cache.py:115-121 | the least recently used key leaves the list and the map and num_keys drops by one; with no entry the sentinel assertion fails |
| LruCache.LRUCache.Insert | lru_cache.py:122-124 | a new key's node goes at the most recently used end and num_keys grows by one |
| LruCache.LRUCache.Put | lru_cache.py:108-124 | update-and-move on a hit; on a miss, eviction of the least recently used key when full, then insertion at the end; counters untouched; num_keys <= capacity whenever capacity >= 1 |
| GraphEdges.JoinedByIff | aA-control.py:69-72 | the edge relation built from an edge list: x -> y iff some edge joins them (either way when undirected) |
| AdjacencyMatrix.GrowConsistent | graph_adjacency_matrix.py:74-78 | a zero column and a zero row of length n+1 for the new vertex at index n keep the matrix square and the map a bijection, and add no edge |
| AdjacencyMatrix.ShrinkConsistent | graph_adjacency_matrix.py:84-94 | deleting the row and column and shifting the later indices down keeps the invariant; exactly the edges touching the vertex are lost |
| AdjacencyMatrix.SetEdgeConsistent | graph_adjacency_matrix.py:51-55 | setting [u][v] (and [v][u] when undirected) keeps the invariant, including symmetry, and changes only that edge |
| AdjacencyMatrix.GraphAdjacencyMatrix.Empty | graph_adjacency_matrix.py:25-27 | no vertices, an empty index map and an empty matrix |
| AdjacencyMatrix.GraphAdjacencyMatrix.New | graph_adjacency_matrix.py:22-33 | succeeds exactly when the vertices are distinct and every edge has two ends, both vertices, and is the first to join them; fails with VertexExists exactly on a repeated vertex; on success the vertices in order and the edge relation of the edge list |
| AdjacencyMatrix.GraphAdjacencyMatrix.ValidateEdge | graph_adjacency_matrix.py:35-42 | passes exactly when both ends are vertices |
| AdjacencyMatrix.GraphAdjacencyMatrix.ContainsVertex | graph_adjacency_matrix.py:96-97 | true exactly for vertices |
| AdjacencyMatrix.GraphAdjacencyMatrix.ContainsEdge | graph_adjacency_matrix.py:99-103 | fails exactly when an end is missing; otherwise whether the edge is present |
| AdjacencyMatrix.GraphAdjacencyMatrix.ContainsEdgeSymmetric | graph_adjacency_matrix.py:54-55 | in an undirected graph contains_edge(u, v) equals contains_edge(v, u) |
| AdjacencyMatrix.GraphAdjacencyMatrix.AddEdge | graph_adjacency_matrix.py:44-55 | fails on a missing end or an existing edge, changing nothing; otherwise adds exactly u->v, and v->u when undirected |
| AdjacencyMatrix.GraphAdjacencyMatrix.RemoveEdge | graph_adjacency_matrix.py:57-68 | fails on a missing end or an absent edge, changing nothing; otherwise removes exactly u->v, and v->u when undirected |
| AdjacencyMatrix.GraphAdjacencyMatrix.AddVertex | graph_adjacency_matrix.py:70-78 | fails on an existing vertex; otherwise the vertex gets index n, the matrix grows by a zero row and column, and the edges are unchanged |
| AdjacencyMatrix.GraphAdjacencyMatrix.RemoveVertex | graph_adjacency_matrix.py:80-94 | fails on an unknown vertex; otherwise its row, column and key go, later indices shift down, and exactly the edges touching it are lost |
| AdjacencyMatrix.GraphAdjacencyMatrix.ClearGraph | graph_adjacency_matrix.py:105-107 | no vertices and no edges |
| AdjacencyList.PairPositions | aA-control.py:111-113 | in a list where a self-loop appended v twice, the two copies are adjacent and there are no others |
| AdjacencyList.PairedAppend | aA-control.py:111 | appending a new neighbour keeps that shape |
| AdjacencyList.PairedAppendSelf | aA-control.py:111-113 | an undirected self-loop appends the vertex twice, in the allowed shape |
| AdjacencyList.PairedDiscard | aA-control.py:161-163 | removing another neighbour keeps the shape and removes just that neighbour |
| AdjacencyList.PairedDiscardSelf | aA-control.py:161-163 | removing a self-loop from an undirected list twice removes every copy |
| AdjacencyList.DistinctDiscard | aA-control.py:134-136 | removing an entry from a list without repeats leaves the other entries |
| AdjacencyList.WithEdgeWf | aA-control.py:111-113 | appending the edge keeps the invariant and adds exactly u->w, and w->u when undirected |
| AdjacencyList.WithoutEdgeWf | aA-control.py:161-163 | removing the edge keeps the invariant and removes exactly u->w, and w->u when undirected |
| AdjacencyList.WithoutEdgeWfPair | aA-control.py:161-163 | the undirected case of the same for two different vertices |
| AdjacencyList.DetachWf | aA-control.py:130-138 | dropping the vertex and every occurrence of it keeps the invariant and loses exactly the edges touching it |
| AdjacencyList.UnlinkStep | aA-control.py:131-132 | iterating over a list while removing from it visits every neighbour once, including a doubled self-loop |
| AdjacencyList.EdgeStep | aA-control.py:69-72 | adding one edge of the list extends the represented edge relation by that edge |
| AdjacencyList.GraphAdjacencyList.Empty | aA-control.py:63-64 | no vertices |
| AdjacencyList.GraphAdjacencyList.New | aA-control.py:51-72 | succeeds exactly when the vertices are distinct and every edge has length 2, joins two vertices and is the first to join them; fails with VertexExists exactly on a repeated vertex; on success the given vertices and the edge relation of the edge list |
| AdjacencyList.GraphAdjacencyList.AddVertices | aA-control.py:66-67 | the vertex loop fails exactly on a repeated vertex, and otherwise gives those vertices and no edge |
| AdjacencyList.GraphAdjacencyList.AddEdges | aA-control.py:69-72 | the edge loop keeps the vertices, succeeds exactly when every edge is accepted, and on success represents the edge list |
| AdjacencyList.GraphAdjacencyList.AddEdgeAt | aA-control.py:70-72 | one pass succeeds exactly when the edge is accepted: a wrong length fails with WrongLength and changes nothing, an unknown end with MissingVertex, an edge an earlier one already joined with EdgeExists; otherwise add_edge extends the represented prefix |
| AdjacencyList.GraphAdjacencyList.AddVertex | aA-control.py:74-87 | fails on an existing vertex; otherwise it gets an empty neighbour list and the edges are unchanged |
| AdjacencyList.GraphAdjacencyList.AddEdge | aA-control.py:89-113 | fails on a missing end or an existing edge, changing nothing; otherwise adds exactly u->w, and w->u when undirected |
| AdjacencyList.GraphAdjacencyList.RemoveEdge | aA-control.py:140-163 | fails on a missing end or an absent edge, changing nothing; otherwise removes exactly u->w, and w->u when undirected |
| AdjacencyList.GraphAdjacencyList.RemoveVertex | aA-control.py:115-138 | fails on an unknown vertex; otherwise the vertex and every occurrence of it go, and exactly the edges touching it are lost |
| AdjacencyList.GraphAdjacencyList.UnlinkNeighbours | aA-control.py:130-132 | the undirected loop removes the vertex from each neighbour's list and leaves other lists |
| AdjacencyList.GraphAdjacencyList.UnlinkEverywhere | aA-control.py:133-136 | the directed loop removes the vertex from every list that holds it |
| AdjacencyList.GraphAdjacencyList.ContainsVertex | aA-control.py:165-175 | true exactly for vertices |
| AdjacencyList.GraphAdjacencyList.ContainsEdge | aA-control.py:177-197 | fails exactly when an end is missing; otherwise whether the edge is present |
| AdjacencyList.GraphAdjacencyList.ContainsEdgeSymmetric | aA-control.py:193-197 | in an undirected graph contains_edge(u, w) equals contains_edge(w, u) |
| AdjacencyList.GraphAdjacencyList.ClearGraph | aA-control.py:199-203 | no vertices and no edges |
| MultiLevelFeedbackQueue.StartTime | multi_level_feedback_queue.py:41-42 | the clock moves up to the arrival time when that is later, and never back |
| MultiLevelFeedbackQueue.Waited | multi_level_feedback_queue.py:35-36 | waiting grows by current_time - completion_time and nothing else changes |
| MultiLevelFeedbackQueue.Step | multi_level_feedback_queue.py:41-68 | one turn keeps the arrival time and the time balance, stamps completion with the new clock, cuts the burst by the slice when preempted, and otherwise finishes the process; with non-negative burst and slice the clock does not go back |
| MultiLevelFeedbackQueue.RunEffect | multi_level_feedback_queue.py:53-68 | after a pass, each process keeps its arrival and time balance, lost one slice of burst if preempted, and is finished otherwise |
| MultiLevelFeedbackQueue.RunMonotone | multi_level_feedback_queue.py:41-44 | with non-negative bursts and slice the clock never goes back, bursts stay non-negative, and completion times follow service order |
| MultiLevelFeedbackQueue.PickFrom | multi_level_feedback_queue.py:58-68 | every process in the preempted or finished list came from the queue with that outcome |
| MultiLevelFeedbackQueue.PickDistinct | multi_level_feedback_queue.py:62-68 | neither list repeats a process if the queue did not |
| MultiLevelFeedbackQueue.PickAll | multi_level_feedback_queue.py:58-68 | every served process lands in the list its outcome names |
| MultiLevelFeedbackQueue.PickNone | multi_level_feedback_queue.py:39-48 | a pass run to completion preempts nobody |
| MultiLevelFeedbackQueue.PickWithin | multi_level_feedback_queue.py:62-68 | both lists hold only queued processes |
| MultiLevelFeedbackQueue.PickCount | multi_level_feedback_queue.py:53-54 | every process taken out is counted once: preempted plus finished is the number present at entry |
| MultiLevelFeedbackQueue.TurnAt | multi_level_feedback_queue.py:53-68 | each queued process keeps its balance and is either re-queued or finished |
| MultiLevelFeedbackQueue.PickApart | multi_level_feedback_queue.py:62-68 | no process is both re-queued and finished |
| MultiLevelFeedbackQueue.LineShape | multi_level_feedback_queue.py:53-62 | after k turns the deque holds the processes not served yet, then the re-queued ones in service order |
| MultiLevelFeedbackQueue.LineHead | multi_level_feedback_queue.py:54 | popleft at turn k takes the k-th process of the round |
| MultiLevelFeedbackQueue.RoundEnd | multi_level_feedback_queue.py:69-70 | after the round the deque is the re-queued processes, and the queue plus finish queue still repeats no process |
| MultiLevelFeedbackQueue.QueueStep | multi_level_feedback_queue.py:39-48 | each FCFS pass moves the head of the queue to the end of the finish queue |
| MultiLevelFeedbackQueue.QueueEnd | multi_level_feedback_queue.py:39-49 | at the end FCFS has moved the whole queue, in order, behind the old finish queue |
| MultiLevelFeedbackQueue.Process.constructor | multi_level_feedback_queue.py:6-13 | name, arrival and burst as given, other times 0 |
| MultiLevelFeedbackQueue.WaitingTimes | multi_level_feedback_queue.py:26-27 | the waiting time of each process, in input order |
| MultiLevelFeedbackQueue.CompletionTimes | multi_level_feedback_queue.py:29-30 | the completion time of each process, in input order |
| MultiLevelFeedbackQueue.TurnaroundTimes | multi_level_feedback_queue.py:32-33 | the turnaround time of each process, in input order |
| MultiLevelFeedbackQueue.FinishedTimes | multi_level_feedback_queue.py:44-47 | for finished processes turnaround is completion - arrival, and waiting is completion - original burst |
| MultiLevelFeedbackQueue.TurnEffects | multi_level_feedback_queue.py:51-70 | after a pass every queued process kept its time balance and was either re-queued or finished |
| MultiLevelFeedbackQueue.MLFQ.constructor | multi_level_feedback_queue.py:15-21 | the fields as given and an empty finish queue |
| MultiLevelFeedbackQueue.MLFQ.CalculateSequence | multi_level_feedback_queue.py:23-24 | the names of the finished processes, in finish order |
| MultiLevelFeedbackQueue.MLFQ.UpdateWaitingTime | multi_level_feedback_queue.py:35-36 | the process's times become Waited(current_time, old times) |
| MultiLevelFeedbackQueue.MLFQ.Admit | multi_level_feedback_queue.py:41-43 | the clock moves to the arrival time if later, then the waiting time is updated |
| MultiLevelFeedbackQueue.MLFQ.RunToEnd | multi_level_feedback_queue.py:44-47 | the process runs its whole burst: burst 0, completion is the clock, turnaround is completion - arrival |
| MultiLevelFeedbackQueue.MLFQ.RunSlice | multi_level_feedback_queue.py:59-61 | the process runs one slice: the burst shrinks by the slice and completion is the clock |
| MultiLevelFeedbackQueue.MLFQ.Serve | multi_level_feedback_queue.py:58-68 | one turn under a budget is exactly Step, and reports whether it was preempted |
| MultiLevelFeedbackQueue.MLFQ.FirstComeFirstServed | multi_level_feedback_queue.py:38-49 | the queue empties into the finish queue in order; the clock and every process's times are those of Run to completion |
| MultiLevelFeedbackQueue.MLFQ.RoundRobin | multi_level_feedback_queue.py:51-70 | finished and re-queued are the two Pick lists of the round, the finish queue is extended by finished, and the clock and times are those of Run |
| MultiLevelFeedbackQueue.MLFQ.Level | multi_level_feedback_queue.py:73-74 | one level is exactly a round-robin pass with that level's slice: the queue becomes the preempted Pick list, the finish queue grows by the finished one, and the clock and every queued process's times are those of Run; it also keeps the processes, the old finish queue and every balance |
| MultiLevelFeedbackQueue.MLFQ.MultiLevelFeedbackQueue | multi_level_feedback_queue.py:72-76 | afterwards the queue is empty; the finish queue is the old one followed by every original process exactly once; each is finished and kept its time balance |

## Left out

- Floating point: tableau and matrix entries are exact reals, so NumPy rounding, NaN, infinities and the `out=`/`where=` mechanics of the ratio test are not modelled. The only ratio-test outcome kept is "no qualifying row", which is an error.
- The float64 dtype check is a boolean parameter of `Simplex.Tableau.New`.
- The runtime `isinstance` checks of `Matrix` (non-list rows, non-numeric entries, a non-integer exponent, an unsupported operand of `*`) are enforced by Dafny's types, not modelled as errors.
- `Matrix.__eq__` and `__ne__` are Dafny's equality on the row sequences. `num_rows`, `num_columns`, `order` and `is_square` are `|m|`, `NumColumns` and `IsSquare`.
- All `__repr__`, `__str__` and `pformat` formatting, the `__main__` blocks, the doctest and unittest harnesses, and the prose around the code.
- `LRUCache.decorator` and the class-level map from functions to caches: the decorator is higher order and keyed on function identity.
- LruCache.LRUCache.Refresh: the value is written before the node is unlinked and relinked, not between the two steps. No other code runs in between, so the final state is the same.
- Aliasing between caller and object: `MLFQ` keeps its own queue sequence and reassigns it, so a caller holding the original deque does not see it drained. The same holds for the graph and matrix row lists.
- MultiLevelFeedbackQueue.MLFQ.constructor: requires the initial queue to hold each process object at most once. The code accepts a repeated object and serves it twice.
- MultiLevelFeedbackQueue.MLFQ.MultiLevelFeedbackQueue: requires a time slice for each of the first num_queues - 1 levels. With fewer, the code raises IndexError part-way through, which is not modelled.
- MultiLevelFeedbackQueue.MLFQ.MultiLevelFeedbackQueue: states membership, order of the old finish queue, finished state and time balance, not each process's exact times. Each level's exact effect is stated by Level through Pick and Run, and the last level's by FirstComeFirstServed; their composition over all levels is not stated as one formula.
- MultiLevelFeedbackQueue.RunMonotone: the clock is shown not to go back within one pass; the whole run follows by composing passes, which is not stated as one lemma.
- Simplex.Tableau.Pivot: requires a nonzero pivot. With a zero pivot NumPy produces infinities or NaN, which exact reals cannot express. run_simplex only pivots on a positive entry (PivotSearchChoosesPivot).
- Simplex.Tableau.RunSimplex: does not state that the solution is optimal, or that the loop ends before the budget on every input.
- AdjacencyList.GraphAdjacencyList.New: names the failure for a repeated vertex; the failure a bad edge gives is named by AddEdgeAt, not by New.
- AdjacencyMatrix.GraphAdjacencyMatrix.New: states exactly when it succeeds and names the failure for a repeated vertex, but not the error a bad edge gives. A list edge with more than two entries uses its first two, as the code does.
- MatrixClass.Det, MatrixClass.Cofactor, MatrixClass.Minor and MatrixClass.Adjugate: require a square matrix. In the code a minor of a non-square matrix is None and `cofactor` then fails with TypeError on `-None` when row + col is odd; a 1 x n matrix's adjugate iterates j over num_columns and i over num_rows and returns a value. Neither is modelled; `determinant` and `inverse` check squareness first, as the model does.
- MatrixClass.Inverse: follows the determinant as written, so from order 3 on it is not a true inverse (InverseQuirk, InverseOfIdentityQuirk). The identity-product property is proved only for orders 1 and 2 (InverseOfSmallMatrix).
- Aliasing in the simplex tableau: `Tableau.__init__` keeps the caller's NumPy array (simplex.py:50) and `pivot` writes into it (simplex.py:113-114), so the caller sees the changes. The model copies the tableau into a sequence field; the caller's array is not modelled.
- Aliasing in `Matrix.__pow__`: `m ** 1` returns the same object (matrix_class.py:190-193). The model returns an equal value, so object identity is not captured.
- LruCache.LRUCache.Put: the key type has no None. The code accepts `put(None, v)`; a later eviction of that entry then fails the `first_node.key is not None` assertion (lru_cache.py:118). That path is not modelled.
- The undirected self-loop `add_edge(v, v)` puts `v` twice in its own list, so "no list holds a repeat" holds for every other entry only. The model keeps this behaviour.
