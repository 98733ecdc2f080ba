/**
 * The dense matrix value type of matrix_class.py: shape validation, the
 * identity, the recursive determinant with its minors and cofactors, the
 * adjugate and inverse, elementwise and matrix arithmetic, integer powers,
 * and in-place row and column insertion.
 *
 * Entries are exact reals (the source mixes int and float). A matrix is its
 * list of rows; the class Matrix holds that list for the two operations that
 * change it in place.
 */
module MatrixClass {
  import opened Wrappers
  import opened Sequences

  type Rows = seq<seq<real>>

  datatype MatrixError =
    | RaggedRows             // __init__: rows of different lengths
    | RowLengthMismatch      // add_row
    | ColumnLengthMismatch   // add_column
    | OrderMismatch          // + and -
    | InnerDimensionMismatch // matrix *
    | NotSquare              // **
    | NotInvertible          // ** with a negative exponent

  // ---------------------------------------------------------------------------
  // Shape.

  /** Every row has as many entries as the first one. */
  predicate IsRectangular(m: Rows) {
    forall i :: 0 <= i < |m| ==> |m[i]| == |m[0]|
  }

  /** num_columns: 0 for a matrix without rows. */
  function NumColumns(m: Rows): nat {
    if |m| == 0 then 0 else |m[0]|
  }

  /** is_square: order[0] == order[1]. */
  predicate IsSquare(m: Rows) {
    |m| == NumColumns(m)
  }

  /** m has r rows of c entries each. */
  ghost predicate IsGrid(m: Rows, r: nat, c: nat) {
    |m| == r && forall i :: 0 <= i < |m| ==> |m[i]| == c
  }

  lemma RectangularIsGrid(m: Rows)
    requires IsRectangular(m)
    ensures IsGrid(m, |m|, NumColumns(m))
  {
  }

  /** identity: num_rows x num_rows, 1 exactly on the diagonal. */
  function Identity(n: nat): (id: Rows)
    ensures IsGrid(id, n, n) && IsRectangular(id) && IsSquare(id)
  {
    seq(n, i requires 0 <= i < n => seq(n, j requires 0 <= j < n => if i == j then 1.0 else 0.0))
  }

  // ---------------------------------------------------------------------------
  // Determinant, minors, cofactors.

  /** The matrix without row r and column c. */
  function Submatrix(m: Rows, r: nat, c: nat): (u: Rows)
    requires IsGrid(m, |m|, |m|) && r < |m| && c < |m|
    ensures IsGrid(u, |m| - 1, |m| - 1)
    ensures forall i, j :: 0 <= i < |m| - 1 && 0 <= j < |m| - 1 ==>
      u[i][j] == m[if i < r then i else i + 1][if j < c then j else j + 1]
  {
    var kept := RemoveAt(m, r);
    seq(|m| - 1, i requires 0 <= i < |m| - 1 => RemoveAt(kept[i], c))
  }

  /** determinant of a square matrix: 1 for 0x0, the sole entry for 1x1,
      ad - bc for 2x2, and otherwise the sum over i of rows[0][i] times
      cofactor(i, 0). That sum pairs the i-th entry of row 0 with the minor
      that deletes ROW i and column 0, which is not Laplace expansion. */
  function Det(m: Rows): real
    requires IsGrid(m, |m|, |m|)
    decreases |m|, 3, 0
  {
    if |m| == 0 then 1.0
    else if |m| == 1 then m[0][0]
    else if |m| == 2 then m[0][0] * m[1][1] - m[0][1] * m[1][0]
    else ExpansionSum(m, |m|)
  }

  /** The first k terms of the sum in Det. */
  function ExpansionSum(m: Rows, k: nat): real
    requires IsGrid(m, |m|, |m|) && k <= |m|
    decreases |m|, 2, k
  {
    if k == 0 then 0.0 else ExpansionSum(m, k - 1) + m[0][k - 1] * Cofactor(m, k - 1, 0)
  }

  /** cofactor: the minor, negated when row + col is odd. */
  function Cofactor(m: Rows, r: nat, c: nat): real
    requires IsGrid(m, |m|, |m|) && r < |m| && c < |m|
    decreases |m|, 1, 0
  {
    var minor := Minor(m, r, c);
    if (r + c) % 2 == 0 then minor else -minor
  }

  /** minor: the determinant of the matrix without row r and column c. */
  function Minor(m: Rows, r: nat, c: nat): real
    requires IsGrid(m, |m|, |m|) && r < |m| && c < |m|
    decreases |m|, 0, 0
  {
    Det(Submatrix(m, r, c))
  }

  /** determinant: None exactly for a non-square matrix. */
  function Determinant(m: Rows): (d: Option<real>)
    requires IsRectangular(m)
    ensures d.None? <==> !IsSquare(m)
    ensures |m| == 0 ==> d == Some(1.0)
  {
    if IsSquare(m) then Some(Det(m)) else None
  }

  /** is_invertable: the determinant exists and is nonzero. */
  predicate IsInvertable(m: Rows)
    requires IsRectangular(m)
    ensures IsInvertable(m) <==> IsSquare(m) && Det(m) != 0.0
  {
    match Determinant(m)
    case Some(d) => d != 0.0
    case None => false
  }

  /** Deleting the first row and column of the identity leaves the identity. */
  lemma SubmatrixOfIdentity(n: nat)
    requires n >= 1
    ensures Submatrix(Identity(n), 0, 0) == Identity(n - 1)
  {
    var u := Submatrix(Identity(n), 0, 0);
    forall i | 0 <= i < n - 1
      ensures u[i] == Identity(n - 1)[i]
    {
      assert u[i] == RemoveAt(RemoveAt(Identity(n), 0)[i], 0);
    }
  }

  /** In the identity, only the first term of Det's sum survives. */
  lemma {:induction false} IdentityExpansionSum(n: nat, k: nat)
    requires 3 <= n && 1 <= k <= n
    ensures ExpansionSum(Identity(n), k) == Cofactor(Identity(n), 0, 0)
  {
    if k > 1 {
      IdentityExpansionSum(n, k - 1);
      assert Identity(n)[0][k - 1] == 0.0;
    }
  }

  /** The identity has determinant 1. */
  lemma {:induction false} DeterminantOfIdentity(n: nat)
    ensures Det(Identity(n)) == 1.0
  {
    if n >= 3 {
      IdentityExpansionSum(n, n);
      SubmatrixOfIdentity(n);
      DeterminantOfIdentity(n - 1);
    }
  }

  /** A unit upper triangular 3x3 matrix: its true determinant is 1. */
  function UnitUpperTriangular(): (m: Rows)
    ensures IsGrid(m, 3, 3) && IsRectangular(m) && IsSquare(m)
  {
    [[1.0, 2.0, 0.0], [0.0, 1.0, 0.0], [0.0, 0.0, 1.0]]
  }

  /** The literal determinant is not the determinant: on this unit upper
      triangular matrix (true determinant 1) it gives -3, since the term
      for i = 1 multiplies rows[0][1] = 2 by the cofactor that deletes row 1. */
  lemma DeterminantQuirk()
    ensures Det(UnitUpperTriangular()) == -3.0
  {
    var m := UnitUpperTriangular();
    assert RemoveAt(m[1], 0) == [1.0, 0.0] && RemoveAt(m[2], 0) == [0.0, 1.0];
    assert RemoveAt(m[0], 0) == [2.0, 0.0];
    assert Submatrix(m, 0, 0) == [[1.0, 0.0], [0.0, 1.0]];
    assert Submatrix(m, 1, 0) == [[2.0, 0.0], [0.0, 1.0]];
    assert ExpansionSum(m, 1) == 1.0;
    assert ExpansionSum(m, 2) == 1.0 + 2.0 * -2.0;
  }

  // ---------------------------------------------------------------------------
  // Adjugate and inverse.

  /** adjugate: entry (i, j) is cofactor(j, i). */
  function Adjugate(m: Rows): (adj: Rows)
    requires IsGrid(m, |m|, |m|)
    ensures IsGrid(adj, |m|, |m|)
    ensures forall i, j :: 0 <= i < |m| && 0 <= j < |m| ==> adj[i][j] == Cofactor(m, j, i)
  {
    seq(|m|, i requires 0 <= i < |m| => seq(|m|, j requires 0 <= j < |m| => Cofactor(m, j, i)))
  }

  /** inverse: None when the determinant is None or 0, otherwise the
      adjugate scaled by 1 / determinant. It exists exactly for the
      invertable matrices and has their order. */
  function Inverse(m: Rows): (inv: Option<Rows>)
    requires IsRectangular(m)
    ensures inv.Some? <==> IsInvertable(m)
    ensures inv.Some? ==> IsGrid(inv.value, |m|, |m|) && IsRectangular(inv.value) && IsSquare(inv.value)
    ensures inv.Some? ==> forall i, j :: 0 <= i < |m| && 0 <= j < |m| ==>
      inv.value[i][j] == Cofactor(m, j, i) * (1.0 / Det(m))
  {
    match Determinant(m)
    case None => None
    case Some(d) => if d == 0.0 then None else Some(Scale(Adjugate(m), 1.0 / d))
  }

  /** Up to order 3 a cofactor of the identity is 1 on the diagonal and 0
      off it. */
  lemma CofactorOfSmallIdentity(n: nat, r: nat, c: nat)
    requires n <= 3 && r < n && c < n
    ensures Cofactor(Identity(n), r, c) == if r == c then 1.0 else 0.0
  {
    var u := Submatrix(Identity(n), r, c);
    if n == 3 {
      assert Det(u) == u[0][0] * u[1][1] - u[0][1] * u[1][0];
      assert u[0][0] == if r == 0 || c == 0 then (if r == 0 && c == 0 then 1.0 else 0.0) else 1.0;
      assert u[1][1] == if r == 2 || c == 2 then (if r == 2 && c == 2 then 1.0 else 0.0) else 1.0;
      assert u[0][1] == if r == 0 && c == 2 then 1.0 else 0.0;
      assert u[1][0] == if r == 2 && c == 0 then 1.0 else 0.0;
    } else if n == 2 {
      assert Det(u) == u[0][0];
    }
  }

  /** Up to order 3 the adjugate of the identity is the identity. */
  lemma AdjugateOfSmallIdentity(n: nat)
    requires n <= 3
    ensures Adjugate(Identity(n)) == Identity(n)
  {
    var id, adj := Identity(n), Adjugate(Identity(n));
    forall i, j | 0 <= i < n && 0 <= j < n
      ensures adj[i][j] == id[i][j]
    {
      CofactorOfSmallIdentity(n, j, i);
    }
    assert forall i :: 0 <= i < n ==> adj[i] == id[i];
  }

  /** Up to order 3 the inverse of the identity is the identity. */
  lemma InverseOfSmallIdentity(n: nat)
    requires n <= 3
    ensures Inverse(Identity(n)) == Some(Identity(n))
  {
    DeterminantOfIdentity(n);
    AdjugateOfSmallIdentity(n);
    ScaleByOne(Identity(n));
  }

  /** From order 4 on the literal determinant shows: the cofactor that
      deletes row 0 and column 2 of the 4x4 identity is -1, so its
      inverse has -1 at (2, 0) instead of 0. */
  lemma InverseOfIdentityQuirk()
    ensures Inverse(Identity(4)).Some? && Inverse(Identity(4)).value[2][0] == -1.0
  {
    var id := Identity(4);
    var u := Submatrix(id, 0, 2);
    assert u[0][0] == 0.0 && u[0][1] == 1.0 && u[0][2] == 0.0;
    var w := Submatrix(u, 1, 0);
    assert Det(w) == w[0][0] * w[1][1] - w[0][1] * w[1][0] == 1.0;
    assert Minor(u, 1, 0) == 1.0;
    assert ExpansionSum(u, 1) == 0.0;
    assert ExpansionSum(u, 2) == -1.0;
    assert ExpansionSum(u, 3) == -1.0;
    assert Minor(id, 0, 2) == Det(u) == -1.0;
    DeterminantOfIdentity(4);
  }

  /** A dot product of two pairs, written out. */
  lemma DotOfPairs(x: seq<real>, y: seq<real>)
    requires |x| == |y| == 2
    ensures Dot(x, y) == x[0] * y[0] + x[1] * y[1]
  {
    assert Dot(x[..1], y[..1]) == Dot(x[..1][..0], y[..1][..0]) + x[0] * y[0];
  }

  /** A dot product of two triples, written out. */
  lemma DotOfTriples(x: seq<real>, y: seq<real>)
    requires |x| == |y| == 3
    ensures Dot(x, y) == x[0] * y[0] + x[1] * y[1] + x[2] * y[2]
  {
    DotOfPairs(x[..2], y[..2]);
  }

  /** The cofactors of a 2x2 matrix: the opposite diagonal entry, negated
      off the diagonal. */
  lemma CofactorsOfTwoByTwo(m: Rows)
    requires IsGrid(m, 2, 2)
    ensures Cofactor(m, 0, 0) == m[1][1] && Cofactor(m, 1, 1) == m[0][0]
    ensures Cofactor(m, 0, 1) == -m[1][0] && Cofactor(m, 1, 0) == -m[0][1]
  {
    var u00, u01, u10, u11 := Submatrix(m, 0, 0), Submatrix(m, 0, 1), Submatrix(m, 1, 0), Submatrix(m, 1, 1);
    assert Det(u00) == u00[0][0] == m[1][1];
    assert Det(u01) == u01[0][0] == m[1][0];
    assert Det(u10) == u10[0][0] == m[0][1];
    assert Det(u11) == u11[0][0] == m[0][0];
  }

  /** The 2x2 adjugate: the diagonal swapped, the other two entries
      negated. */
  lemma AdjugateOfTwoByTwo(m: Rows)
    requires IsGrid(m, 2, 2)
    ensures Adjugate(m) == [[m[1][1], -m[0][1]], [-m[1][0], m[0][0]]]
  {
    CofactorsOfTwoByTwo(m);
    var adj := Adjugate(m);
    assert adj[0] == [m[1][1], -m[0][1]];
    assert adj[1] == [-m[1][0], m[0][0]];
  }

  /** The product of two 2x2 matrices, entry by entry. */
  lemma ProductOfPairs(m: Rows, n: Rows)
    requires IsGrid(m, 2, 2) && IsGrid(n, 2, 2)
    ensures Mul(m, n).Success? && IsGrid(Mul(m, n).value, 2, 2)
    ensures forall i, j :: 0 <= i < 2 && 0 <= j < 2 ==>
      Mul(m, n).value[i][j] == m[i][0] * n[0][j] + m[i][1] * n[1][j]
  {
    var p := Mul(m, n).value;
    forall i, j | 0 <= i < 2 && 0 <= j < 2
      ensures p[i][j] == m[i][0] * n[0][j] + m[i][1] * n[1][j]
    {
      var col := Column(n, j);
      assert col[0] == n[0][j] && col[1] == n[1][j];
      DotOfPairs(m[i], col);
    }
  }

  lemma TwoByTwoArithmetic(a: real, b: real, c: real, e: real, k: real)
    requires (a * e - b * c) * k == 1.0
    ensures a * (e * k) + b * (-c * k) == 1.0 && a * (-b * k) + b * (a * k) == 0.0
    ensures c * (e * k) + e * (-c * k) == 0.0 && c * (-b * k) + e * (a * k) == 1.0
    ensures (e * k) * a + (-b * k) * c == 1.0 && (e * k) * b + (-b * k) * e == 0.0
    ensures (-c * k) * a + (a * k) * c == 0.0 && (-c * k) * b + (a * k) * e == 1.0
  {
  }

  /** The adjugate of [[a, b], [c, e]] scaled by k, with k (ae - bc) = 1,
      is its inverse on both sides. */
  lemma ProductsOfTwoByTwo(a: real, b: real, c: real, e: real, k: real)
    requires (a * e - b * c) * k == 1.0
    ensures Mul([[a, b], [c, e]], [[e * k, -b * k], [-c * k, a * k]]) == Success(Identity(2))
    ensures Mul([[e * k, -b * k], [-c * k, a * k]], [[a, b], [c, e]]) == Success(Identity(2))
  {
    var m, inv := [[a, b], [c, e]], [[e * k, -b * k], [-c * k, a * k]];
    TwoByTwoArithmetic(a, b, c, e, k);
    ProductOfPairs(m, inv);
    ProductOfPairs(inv, m);
    var id, p, q := Identity(2), Mul(m, inv).value, Mul(inv, m).value;
    assert id[0] == [1.0, 0.0] && id[1] == [0.0, 1.0];
    assert p[0][0] == 1.0 && p[0][1] == 0.0 && p[1][0] == 0.0 && p[1][1] == 1.0;
    assert q[0][0] == 1.0 && q[0][1] == 0.0 && q[1][0] == 0.0 && q[1][1] == 1.0;
    assert p[0] == id[0] && p[1] == id[1];
    assert q[0] == id[0] && q[1] == id[1];
    assert p == id && q == id;
  }

  /** inverse is the adjugate scaled by 1 / determinant. */
  lemma InverseScalesAdjugate(m: Rows)
    requires IsRectangular(m) && IsInvertable(m)
    ensures IsSquare(m) && Det(m) != 0.0
    ensures Inverse(m) == Some(Scale(Adjugate(m), 1.0 / Det(m)))
  {
  }

  /** A 1x1 or 2x2 inverse is a true inverse: its product with the matrix
      is the identity on either side. */
  lemma InverseOfSmallMatrix(m: Rows)
    requires IsRectangular(m) && IsSquare(m) && 1 <= |m| <= 2 && IsInvertable(m)
    ensures Mul(m, Inverse(m).value) == Success(Identity(|m|))
    ensures Mul(Inverse(m).value, m) == Success(Identity(|m|))
  {
    if |m| == 1 {
      InverseOfOneByOne(m);
    } else {
      InverseOfTwoByTwo(m);
    }
  }

  /** The 2x2 case: the adjugate over ad - bc inverts on both sides. */
  lemma InverseOfTwoByTwo(m: Rows)
    requires IsRectangular(m) && |m| == 2 && IsSquare(m) && IsInvertable(m)
    ensures Mul(m, Inverse(m).value) == Success(Identity(2))
    ensures Mul(Inverse(m).value, m) == Success(Identity(2))
  {
    var a, b, c, e := m[0][0], m[0][1], m[1][0], m[1][1];
    var d := Det(m);
    var k := 1.0 / d;
    InverseScalesAdjugate(m);
    AdjugateOfTwoByTwo(m);
    var adj := [[e, -b], [-c, a]];
    var inv := Scale(adj, k);
    assert adj[0][0] == e && adj[0][1] == -b && adj[1][0] == -c && adj[1][1] == a;
    assert inv[0][0] == e * k && inv[0][1] == -b * k && inv[1][0] == -c * k && inv[1][1] == a * k;
    assert inv[0] == [e * k, -b * k] && inv[1] == [-c * k, a * k];
    assert inv == [[e * k, -b * k], [-c * k, a * k]];
    assert m[0] == [a, b] && m[1] == [c, e];
    assert m == [[a, b], [c, e]];
    assert d == a * e - b * c;
    assert d * k == 1.0;
    ProductsOfTwoByTwo(a, b, c, e, k);
  }

  /** The 1x1 case: [[x]] has inverse [[1 / x]]. */
  lemma InverseOfOneByOne(m: Rows)
    requires IsRectangular(m) && IsSquare(m) && |m| == 1 && IsInvertable(m)
    ensures Inverse(m) == Some([[1.0 / m[0][0]]])
    ensures Mul(m, Inverse(m).value) == Success(Identity(1))
    ensures Mul(Inverse(m).value, m) == Success(Identity(1))
  {
    var x := m[0][0];
    var k := 1.0 / x;
    InverseScalesAdjugate(m);
    var adj := Adjugate(m);
    assert Det(Submatrix(m, 0, 0)) == 1.0;
    assert adj[0][0] == Cofactor(m, 0, 0) == 1.0;
    var inv := Scale(adj, k);
    assert inv[0][0] == 1.0 * k == k;
    assert inv[0] == [k];
    assert inv == [[k]];
    var id, p, q := Identity(1), Mul(m, inv).value, Mul(inv, m).value;
    assert Column(inv, 0) == [k] && Column(m, 0) == [x];
    assert m[0] == [x];
    assert p[0][0] == Dot([x], [k]) == x * k == 1.0;
    assert q[0][0] == Dot([k], [x]) == k * x == 1.0;
    assert id[0] == [1.0] && p[0] == [1.0] && q[0] == [1.0];
    assert p == id && q == id;
  }

  /** The first column of the adjugate of UnitUpperTriangular. */
  lemma AdjugateOfUnitUpperTriangular()
    ensures Adjugate(UnitUpperTriangular())[0][0] == 1.0
    ensures Adjugate(UnitUpperTriangular())[1][0] == 0.0
    ensures Adjugate(UnitUpperTriangular())[2][0] == 0.0
  {
    var m := UnitUpperTriangular();
    var u0, u1, u2 := Submatrix(m, 0, 0), Submatrix(m, 0, 1), Submatrix(m, 0, 2);
    assert u0[0][0] == 1.0 && u0[0][1] == 0.0 && u0[1][0] == 0.0 && u0[1][1] == 1.0;
    assert u1[0][0] == 0.0 && u1[1][0] == 0.0;
    assert u2[1][0] == 0.0 && u2[1][1] == 0.0;
  }

  /** The first column of the inverse of UnitUpperTriangular: its
      determinant -3 scales the adjugate. */
  lemma InverseOfUnitUpperTriangular()
    ensures Inverse(UnitUpperTriangular()).Some?
    ensures Inverse(UnitUpperTriangular()).value[0][0] == 1.0 / -3.0
    ensures Inverse(UnitUpperTriangular()).value[1][0] == 0.0
    ensures Inverse(UnitUpperTriangular()).value[2][0] == 0.0
  {
    var m := UnitUpperTriangular();
    DeterminantQuirk();
    InverseScalesAdjugate(m);
    AdjugateOfUnitUpperTriangular();
  }

  /** The literal determinant breaks the inverse at order 3: for the unit
      upper triangular matrix of DeterminantQuirk, m * inverse(m) has
      -1/3 where the identity has 1. */
  lemma InverseQuirk()
    ensures IsRectangular(UnitUpperTriangular()) && Inverse(UnitUpperTriangular()).Some?
    ensures Mul(UnitUpperTriangular(), Inverse(UnitUpperTriangular()).value).value[0][0] == -1.0 / 3.0
  {
    var m := UnitUpperTriangular();
    InverseOfUnitUpperTriangular();
    var inv := Inverse(m).value;
    var col := Column(inv, 0);
    DotOfTriples(m[0], col);
    assert m[0] == [1.0, 2.0, 0.0];
    assert Mul(m, inv).value[0][0] == Dot(m[0], col);
  }

  // ---------------------------------------------------------------------------
  // Elementwise arithmetic.

  /** -m: every entry negated. */
  function Neg(m: Rows): (u: Rows)
    ensures |u| == |m| && forall i :: 0 <= i < |m| ==> |u[i]| == |m[i]|
    ensures forall i, j :: 0 <= i < |m| && 0 <= j < |m[i]| ==> u[i][j] == -m[i][j]
  {
    seq(|m|, i requires 0 <= i < |m| => seq(|m[i]|, j requires 0 <= j < |m[i]| => -m[i][j]))
  }

  /** m * s for a number s: every entry multiplied by s. */
  function Scale(m: Rows, s: real): (u: Rows)
    ensures |u| == |m| && forall i :: 0 <= i < |m| ==> |u[i]| == |m[i]|
    ensures forall i, j :: 0 <= i < |m| && 0 <= j < |m[i]| ==> u[i][j] == m[i][j] * s
  {
    seq(|m|, i requires 0 <= i < |m| => seq(|m[i]|, j requires 0 <= j < |m[i]| => m[i][j] * s))
  }

  /** Scaling by 1 changes nothing. */
  lemma ScaleByOne(m: Rows)
    ensures Scale(m, 1.0) == m
  {
    assert forall i :: 0 <= i < |m| ==> Scale(m, 1.0)[i] == m[i];
  }

  /** a + b: ValueError unless the orders agree, then entrywise sums. */
  function Add(a: Rows, b: Rows): (r: Result<Rows, MatrixError>)
    requires IsRectangular(a) && IsRectangular(b)
    ensures r.Failure? <==> |a| != |b| || NumColumns(a) != NumColumns(b)
    ensures r.Failure? ==> r.error == OrderMismatch
    ensures r.Success? ==> IsGrid(r.value, |a|, NumColumns(a)) && forall i, j :: 0 <= i < |a| && 0 <= j < NumColumns(a) ==>
      r.value[i][j] == a[i][j] + b[i][j]
  {
    if |a| != |b| || NumColumns(a) != NumColumns(b) then Failure(OrderMismatch)
    else Success(seq(|a|, i requires 0 <= i < |a| => seq(|a[i]|, j requires 0 <= j < |a[i]| => a[i][j] + b[i][j])))
  }

  /** a - b: ValueError unless the orders agree, then entrywise differences. */
  function Sub(a: Rows, b: Rows): (r: Result<Rows, MatrixError>)
    requires IsRectangular(a) && IsRectangular(b)
    ensures r.Failure? <==> |a| != |b| || NumColumns(a) != NumColumns(b)
    ensures r.Failure? ==> r.error == OrderMismatch
    ensures r.Success? ==> IsGrid(r.value, |a|, NumColumns(a)) && forall i, j :: 0 <= i < |a| && 0 <= j < NumColumns(a) ==>
      r.value[i][j] == a[i][j] - b[i][j]
  {
    if |a| != |b| || NumColumns(a) != NumColumns(b) then Failure(OrderMismatch)
    else Success(seq(|a|, i requires 0 <= i < |a| => seq(|a[i]|, j requires 0 <= j < |a[i]| => a[i][j] - b[i][j])))
  }

  /** Scaling keeps a matrix rectangular. */
  lemma ScaleRectangular(m: Rows, s: real)
    requires IsRectangular(m)
    ensures IsRectangular(Scale(m, s))
  {
    var u := Scale(m, s);
    forall i | 0 <= i < |u| ensures |u[i]| == |u[0]| {
    }
  }

  /** Multiplying by a number distributes over +, failure included. */
  lemma ScaleDistributesOverAdd(a: Rows, b: Rows, s: real)
    requires IsRectangular(a) && IsRectangular(b)
    ensures IsRectangular(Scale(a, s)) && IsRectangular(Scale(b, s))
    ensures Add(a, b).Failure? ==> Add(Scale(a, s), Scale(b, s)) == Failure(OrderMismatch)
    ensures Add(a, b).Success? ==> Add(Scale(a, s), Scale(b, s)) == Success(Scale(Add(a, b).value, s))
  {
    ScaleRectangular(a, s);
    ScaleRectangular(b, s);
    if Add(a, b).Success? {
      var sum := Add(a, b).value;
      var d, e := Add(Scale(a, s), Scale(b, s)).value, Scale(sum, s);
      forall i | 0 <= i < |a| ensures d[i] == e[i] {
        assert |d[i]| == |e[i]| == NumColumns(a);
        forall j | 0 <= j < NumColumns(a) ensures d[i][j] == e[i][j] {
          assert d[i][j] == a[i][j] * s + b[i][j] * s;
          assert e[i][j] == (a[i][j] + b[i][j]) * s;
        }
      }
      assert d == e;
    }
  }

  /** Negating twice gives the matrix back. */
  lemma NegInvolutive(m: Rows)
    ensures Neg(Neg(m)) == m
  {
    assert forall i :: 0 <= i < |m| ==> Neg(Neg(m))[i] == m[i];
  }

  /** a - b is a + (-b), failure included. */
  lemma SubIsAddNeg(a: Rows, b: Rows)
    requires IsRectangular(a) && IsRectangular(b)
    ensures IsRectangular(Neg(b)) && Sub(a, b) == Add(a, Neg(b))
  {
    var nb := Neg(b);
    assert IsRectangular(nb) by {
      forall i | 0 <= i < |nb| ensures |nb[i]| == |nb[0]| {
      }
    }
    if Sub(a, b).Success? {
      var d, e := Sub(a, b).value, Add(a, nb).value;
      forall i | 0 <= i < |a| ensures d[i] == e[i] {
        assert |d[i]| == |e[i]| == NumColumns(a);
        forall j | 0 <= j < NumColumns(a) ensures d[i][j] == e[i][j] {
          assert nb[i][j] == -b[i][j];
        }
      }
      assert d == e;
    }
  }

  /** Addition commutes, failure included. */
  lemma AddCommutes(a: Rows, b: Rows)
    requires IsRectangular(a) && IsRectangular(b)
    ensures Add(a, b) == Add(b, a)
  {
    if Add(a, b).Success? {
      var d, e := Add(a, b).value, Add(b, a).value;
      forall i | 0 <= i < |a| ensures d[i] == e[i] {
        assert |d[i]| == |e[i]| == NumColumns(a);
        forall j | 0 <= j < NumColumns(a) ensures d[i][j] == e[i][j] {
        }
      }
      assert d == e;
    }
  }

  // ---------------------------------------------------------------------------
  // Products.

  /** dot_product: the sum of x[k] * y[k] over zip(x, y), which stops at the
      shorter vector, accumulated from the front. */
  function Dot(x: seq<real>, y: seq<real>): real
    decreases |x|
  {
    var n := if |x| < |y| then |x| else |y|;
    if n == 0 then 0.0 else Dot(x[..n - 1], y[..n - 1]) + x[n - 1] * y[n - 1]
  }

  /** zip stops at the shorter vector: the extra entries of the longer one
      do not count. */
  lemma {:induction false} DotTruncates(x: seq<real>, y: seq<real>)
    requires |x| <= |y|
    ensures Dot(x, y) == Dot(x, y[..|x|])
  {
    if |x| > 0 {
      assert y[..|x|][..|x| - 1] == y[..|x| - 1];
    }
  }

  /** The dot product is symmetric. */
  lemma {:induction false} DotCommutes(x: seq<real>, y: seq<real>)
    decreases |x|
    ensures Dot(x, y) == Dot(y, x)
  {
    var n := if |x| < |y| then |x| else |y|;
    if n > 0 {
      DotCommutes(x[..n - 1], y[..n - 1]);
    }
  }

  /** The unit vector with 1 at j. */
  function Unit(n: nat, j: nat): (e: seq<real>)
    ensures |e| == n
  {
    seq(n, k requires 0 <= k < n => if k == j then 1.0 else 0.0)
  }

  /** Dotting with a unit vector picks out one entry. */
  lemma {:induction false} DotUnitRight(x: seq<real>, j: nat)
    requires j < |x|
    ensures Dot(x, Unit(|x|, j)) == x[j]
  {
    var n := |x|;
    if n - 1 == j {
      DotZeroRight(x[..n - 1], Unit(n, j)[..n - 1]);
    } else {
      assert Unit(n, j)[..n - 1] == Unit(n - 1, j);
      DotUnitRight(x[..n - 1], j);
    }
  }

  /** The same with the unit vector on the left. */
  lemma {:induction false} DotUnitLeft(y: seq<real>, j: nat)
    requires j < |y|
    ensures Dot(Unit(|y|, j), y) == y[j]
  {
    var n := |y|;
    if n - 1 == j {
      DotZeroLeft(Unit(n, j)[..n - 1], y[..n - 1]);
    } else {
      assert Unit(n, j)[..n - 1] == Unit(n - 1, j);
      DotUnitLeft(y[..n - 1], j);
    }
  }

  lemma {:induction false} DotZeroRight(x: seq<real>, z: seq<real>)
    requires forall k :: 0 <= k < |z| ==> z[k] == 0.0
    ensures Dot(x, z) == 0.0
  {
    var n := if |x| < |z| then |x| else |z|;
    if n > 0 {
      DotZeroRight(x[..n - 1], z[..n - 1]);
    }
  }

  lemma {:induction false} DotZeroLeft(z: seq<real>, y: seq<real>)
    requires forall k :: 0 <= k < |z| ==> z[k] == 0.0
    ensures Dot(z, y) == 0.0
  {
    var n := if |z| < |y| then |z| else |y|;
    if n > 0 {
      DotZeroLeft(z[..n - 1], y[..n - 1]);
    }
  }

  /** Column j of b (a tuple of zip(*b.rows)). */
  function Column(b: Rows, j: nat): (col: seq<real>)
    requires IsGrid(b, |b|, NumColumns(b)) && j < NumColumns(b)
    ensures |col| == |b| && forall k :: 0 <= k < |b| ==> col[k] == b[k][j]
  {
    seq(|b|, k requires 0 <= k < |b| => b[k][j])
  }

  /** a * b for a matrix b: ValueError unless num_columns(a) == num_rows(b),
      then entry (i, j) is the dot product of row i of a and column j of b. */
  function Mul(a: Rows, b: Rows): (r: Result<Rows, MatrixError>)
    requires IsRectangular(a) && IsRectangular(b)
    ensures r.Failure? <==> NumColumns(a) != |b|
    ensures r.Failure? ==> r.error == InnerDimensionMismatch
    ensures r.Success? ==> IsGrid(r.value, |a|, NumColumns(b)) && IsRectangular(r.value)
    ensures r.Success? ==> forall i, j :: 0 <= i < |a| && 0 <= j < NumColumns(b) ==>
      r.value[i][j] == Dot(a[i], Column(b, j))
  {
    if NumColumns(a) != |b| then Failure(InnerDimensionMismatch)
    else
      RectangularIsGrid(b);
      Success(seq(|a|, i requires 0 <= i < |a| =>
        seq(NumColumns(b), j requires 0 <= j < NumColumns(b) => Dot(a[i], Column(b, j)))))
  }

  /** Multiplying by the identity on the right changes nothing. */
  lemma MulIdentityRight(a: Rows)
    requires IsRectangular(a)
    ensures Mul(a, Identity(NumColumns(a))) == Success(a)
  {
    var n := NumColumns(a);
    var id := Identity(n);
    RectangularIsGrid(a);
    var p := Mul(a, id).value;
    forall i | 0 <= i < |a|
      ensures p[i] == a[i]
    {
      forall j | 0 <= j < n
        ensures p[i][j] == a[i][j]
      {
        assert Column(id, j) == Unit(n, j);
        DotUnitRight(a[i], j);
      }
    }
    assert p == a;
  }

  /** Multiplying by the identity on the left changes nothing. */
  lemma MulIdentityLeft(b: Rows)
    requires IsRectangular(b)
    ensures Mul(Identity(|b|), b) == Success(b)
  {
    var n := |b|;
    var id := Identity(n);
    RectangularIsGrid(b);
    var p := Mul(id, b).value;
    forall i | 0 <= i < n
      ensures p[i] == b[i]
    {
      forall j | 0 <= j < NumColumns(b)
        ensures p[i][j] == b[i][j]
      {
        assert id[i] == Unit(n, i);
        DotUnitLeft(Column(b, j), i);
      }
    }
    assert p == b;
  }

  // ---------------------------------------------------------------------------
  // Powers.

  /** The n-fold product m * m * ... * m (n >= 1), multiplied on the right. */
  function Power(m: Rows, n: nat): (p: Rows)
    requires IsRectangular(m) && IsSquare(m) && n >= 1
    ensures IsGrid(p, |m|, |m|) && IsRectangular(p) && IsSquare(p)
  {
    if n == 1 then m else Mul(Power(m, n - 1), m).value
  }

  /** Every power of the identity is the identity. */
  lemma {:induction false} PowerOfIdentity(k: nat, n: nat)
    requires n >= 1
    ensures Power(Identity(k), n) == Identity(k)
  {
    if n > 1 {
      PowerOfIdentity(k, n - 1);
      MulIdentityLeft(Identity(k));
    }
  }

  /** __pow__: ValueError for a non-square matrix; the identity for 0; for a
      negative exponent the inverse raised to its absolute value, or
      ValueError when the matrix is not invertable; otherwise the product of
      k copies, accumulated in a loop. */
  method Pow(m: Rows, k: int) returns (r: Result<Rows, MatrixError>)
    requires IsRectangular(m)
    decreases if k < 0 then 1 else 0
    ensures !IsSquare(m) ==> r == Failure(NotSquare)
    ensures IsSquare(m) && k == 0 ==> r == Success(Identity(|m|))
    ensures IsSquare(m) && k < 0 && !IsInvertable(m) ==> r == Failure(NotInvertible)
    ensures IsSquare(m) && k < 0 && IsInvertable(m) ==> r == Success(Power(Inverse(m).value, -k))
    ensures IsSquare(m) && k > 0 ==> r == Success(Power(m, k))
  {
    if !IsSquare(m) {
      return Failure(NotSquare);
    }
    if k == 0 {
      return Success(Identity(|m|));
    }
    if k < 0 {
      if IsInvertable(m) {
        r := Pow(Inverse(m).value, -k);
        return;
      }
      return Failure(NotInvertible);
    }
    var result := m;
    for i := 1 to k
      invariant result == Power(m, i)
    {
      var product := Mul(result, m);
      result := product.value;
    }
    return Success(result);
  }

  // ---------------------------------------------------------------------------
  // Insertion.

  /** The index list.insert(p, x) (and the slice split s[:p], s[p:]) uses:
      a negative p counts from the end, and both ends clamp. */
  function InsertIndex(p: int, n: nat): (k: nat)
    ensures k <= n
    ensures 0 <= p <= n ==> k == p
    ensures -(n as int) <= p < 0 ==> k as int == n as int + p
  {
    if p < 0 then (if n + p < 0 then 0 else n + p) else if p > n then n else p
  }

  /** s with x inserted as by list.insert(p, x), or equally s[:p] + [x] + s[p:]. */
  function Insert<T>(s: seq<T>, p: int, x: T): (u: seq<T>)
    ensures |u| == |s| + 1
  {
    var k := InsertIndex(p, |s|);
    s[..k] + [x] + s[k..]
  }

  /** The inserted element sits at the clamped index, and removing it gives
      back the old sequence, so every old element keeps its relative order. */
  lemma InsertThenRemove<T>(s: seq<T>, p: int, x: T)
    ensures Insert(s, p, x)[InsertIndex(p, |s|)] == x
    ensures RemoveAt(Insert(s, p, x), InsertIndex(p, |s|)) == s
  {
    var k := InsertIndex(p, |s|);
    assert Insert(s, p, x)[..k] == s[..k];
    assert Insert(s, p, x)[k + 1..] == s[k..];
  }

  /** Inserting at the end appends. */
  lemma InsertAtEnd<T>(s: seq<T>, x: T)
    ensures Insert(s, |s|, x) == s + [x]
  {
  }

  /** The rows after add_column: column[i] inserted into row i at p. */
  function InsertColumn(m: Rows, column: seq<real>, p: int): (u: Rows)
    requires |column| == |m|
    ensures |u| == |m| && forall i :: 0 <= i < |m| ==> u[i] == Insert(m[i], p, column[i])
  {
    seq(|m|, i requires 0 <= i < |m| => Insert(m[i], p, column[i]))
  }

  /** The rows after add_column without a position: column[i] appended to
      row i. It is insertion at the end of every row. */
  function AppendColumn(m: Rows, column: seq<real>): (u: Rows)
    requires |column| == |m| && IsRectangular(m)
    ensures u == InsertColumn(m, column, NumColumns(m))
  {
    var u := seq(|m|, i requires 0 <= i < |m| => m[i] + [column[i]]);
    assert forall i :: 0 <= i < |m| ==> u[i] == Insert(m[i], NumColumns(m), column[i]);
    u
  }

  // ---------------------------------------------------------------------------
  // The object.

  class Matrix {
    var rows: Rows

    ghost predicate Valid()
      reads this
    {
      IsRectangular(rows)
    }

    constructor Init(rs: Rows)
      requires IsRectangular(rs)
      ensures Valid() && rows == rs
    {
      rows := rs;
    }

    /** __init__: ValueError for rows of different lengths; an empty list
        gives the matrix without rows. */
    static method New(rs: Rows) returns (r: Result<Matrix, MatrixError>)
      ensures r.Failure? <==> !IsRectangular(rs)
      ensures r.Failure? ==> r.error == RaggedRows
      ensures r.Success? ==> fresh(r.value) && r.value.Valid() && r.value.rows == rs
    {
      if |rs| == 0 {
        var mat := new Matrix.Init([]);
        return Success(mat);
      }
      var numCols := |rs[0]|;
      for i := 0 to |rs|
        invariant forall k :: 0 <= k < i ==> |rs[k]| == numCols
      {
        if |rs[i]| != numCols {
          return Failure(RaggedRows);
        }
      }
      var mat := new Matrix.Init(rs);
      return Success(mat);
    }

    /** add_row: ValueError unless the row has num_columns entries; then the
        row is appended (no position) or inserted as by list.insert. */
    method AddRow(row: seq<real>, position: Option<int>) returns (r: Outcome<MatrixError>)
      requires Valid()
      modifies this
      ensures Valid()
      ensures r.Fail? <==> |row| != NumColumns(old(rows))
      ensures r.Fail? ==> r.error == RowLengthMismatch && rows == old(rows)
      ensures r.Pass? ==> rows == Insert(old(rows), if position.None? then |old(rows)| else position.value, row)
    {
      if |row| != NumColumns(rows) {
        return Fail(RowLengthMismatch);
      }
      var k := if position.None? then |rows| else position.value;
      InsertThenRemove(rows, k, row);
      rows := Insert(rows, k, row);
      assert forall i :: 0 <= i < |rows| ==> |rows[i]| == |row|;
      return Pass;
    }

    /** add_column: ValueError unless the column has num_rows entries; then
        column[i] is appended to (no position) or inserted into row i. */
    method AddColumn(column: seq<real>, position: Option<int>) returns (r: Outcome<MatrixError>)
      requires Valid()
      modifies this
      ensures Valid()
      ensures r.Fail? <==> |column| != |old(rows)|
      ensures r.Fail? ==> r.error == ColumnLengthMismatch && rows == old(rows)
      ensures r.Pass? && position.None? ==> rows == AppendColumn(old(rows), column)
      ensures r.Pass? && position.Some? ==> rows == InsertColumn(old(rows), column, position.value)
    {
      if |column| != |rows| {
        return Fail(ColumnLengthMismatch);
      }
      if position.None? {
        rows := AppendColumn(rows, column);
      } else {
        rows := InsertColumn(rows, column, position.value);
      }
      return Pass;
    }
  }
}
