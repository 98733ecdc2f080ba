/** The two-phase simplex tableau engine (class `Tableau` of simplex.py).

    The NumPy array becomes a sequence of rows of exact reals together with its
    column count (an array without rows still has a width). Floating-point
    rounding is not modelled; the float64 dtype test is a boolean parameter. */
module Simplex {
  import opened Wrappers

  /** The objective tags "min" and "max". */
  datatype Objective = Min | Max

  /** What the source raises, one constructor per distinct failure. */
  datatype SimplexError =
    | NotFloat64        // TypeError: the dtype is not float64
    | NegativeRhs       // ValueError: some right-hand side is negative
    | BadVariableCount  // ValueError: n_vars < 2 or n_artificial_vars < 0
    | NoRhsColumn       // IndexError: tableau[:, -1] of an array without columns
    | NoObjective       // IndexError: objectives[-1] or pop() on an empty list
    | NoObjectiveRow    // IndexError: tableau[0] of an array without rows
    | NoVariableColumn  // ValueError: argmax over an empty row slice
    | NoLeavingRow      // ValueError: nanargmin finds no positive divisor (unbounded)
    | ColumnOutOfRange  // IndexError: a decision-variable column beyond the array

  /** The iteration budget of run_simplex. */
  const MaxIter: nat := 100

  /** Every row holds `cols` entries, whatever the number of rows. */
  ghost predicate AllOfWidth(t: seq<seq<real>>, cols: nat) {
    forall i :: 0 <= i < |t| ==> |t[i]| == cols
  }

  function AbsReal(x: real): real {
    if x < 0.0 then -x else x
  }

  // ---------------------------------------------------------------------------
  // Decimal rendering of the column numbers used in the column titles.

  function Digit(d: nat): char
    requires d < 10
  {
    ('0' as int + d) as char
  }

  function DigitValue(c: char): int {
    c as int - '0' as int
  }

  /** Python's str() of a natural number. */
  function DecimalString(n: nat): (s: string)
    ensures |s| >= 1
    ensures forall k :: 0 <= k < |s| ==> '0' <= s[k] <= '9'
  {
    if n < 10 then [Digit(n)] else DecimalString(n / 10) + [Digit(n % 10)]
  }

  /** Reading a string of decimal digits back as a number. */
  function DecimalValue(s: string): int {
    if |s| == 0 then 0 else DecimalValue(s[..|s| - 1]) * 10 + DigitValue(s[|s| - 1])
  }

  /** Reading back what str() wrote gives the number again. */
  lemma {:induction false} DecimalRoundTrip(n: nat)
    ensures DecimalValue(DecimalString(n)) == n
  {
    var s := DecimalString(n);
    if n >= 10 {
      DecimalRoundTrip(n / 10);
      assert s[..|s| - 1] == DecimalString(n / 10);
    }
  }

  /** Distinct numbers are written differently. */
  lemma DecimalStringInjective(m: nat, n: nat)
    requires m != n
    ensures DecimalString(m) != DecimalString(n)
  {
    DecimalRoundTrip(m);
    DecimalRoundTrip(n);
  }

  // ---------------------------------------------------------------------------
  // Column titles.

  function VarTitle(i: nat): string {
    "x" + DecimalString(i + 1)
  }

  function SlackTitle(i: nat): string {
    "s" + DecimalString(i + 1)
  }

  /** x1..x{nVars}, s1..s{nSlack}, RHS; a negative count gives no titles, as range() does. */
  function ColTitles(nVars: int, nSlack: int): seq<string> {
    seq(if nVars < 0 then 0 else nVars, i requires 0 <= i => VarTitle(i))
    + seq(if nSlack < 0 then 0 else nSlack, i requires 0 <= i => SlackTitle(i))
    + ["RHS"]
  }

  /** Two titles made of a letter and a column number differ when the letters
      or the numbers do. */
  lemma LabelledDistinct(a: char, m: nat, b: char, n: nat)
    requires a != b || m != n
    ensures [a] + DecimalString(m) != [b] + DecimalString(n)
  {
    if m != n {
      DecimalStringInjective(m, n);
      assert ([a] + DecimalString(m))[1..] == DecimalString(m);
      assert ([b] + DecimalString(n))[1..] == DecimalString(n);
    } else {
      assert ([a] + DecimalString(m))[0] == a;
    }
  }

  /** The titles are pairwise distinct, none of them is the objective key "P",
      and RHS comes last. */
  lemma ColTitlesDistinct(nVars: int, nSlack: int)
    ensures var t := ColTitles(nVars, nSlack);
      && |t| == (if nVars < 0 then 0 else nVars) + (if nSlack < 0 then 0 else nSlack) + 1
      && t[|t| - 1] == "RHS"
      && (forall i :: 0 <= i < |t| ==> t[i] != "P")
      && (forall i, j :: 0 <= i < j < |t| ==> t[i] != t[j])
  {
    var t := ColTitles(nVars, nSlack);
    var v := if nVars < 0 then 0 else nVars;
    assert forall i :: 0 <= i < v ==> t[i] == ['x'] + DecimalString(i + 1);
    assert forall i :: v <= i < |t| - 1 ==> t[i] == ['s'] + DecimalString(i - v + 1);
    forall i, j | 0 <= i < j < |t| ensures t[i] != t[j] {
      if j == |t| - 1 {
        assert t[i][0] != 'R';
      } else {
        var a: char, m: nat := if i < v then 'x' else 's', if i < v then i + 1 else i - v + 1;
        var b: char, n: nat := if j < v then 'x' else 's', if j < v then j + 1 else j - v + 1;
        LabelledDistinct(a, m, b, n);
      }
    }
    forall i | 0 <= i < |t| ensures t[i] != "P" {
      assert t[i][0] != 'P';
    }
  }

  /** The decision-variable titles are distinct keys other than "P". */
  lemma VarTitlesAreKeys(nVars: nat, nSlack: int)
    ensures nVars < |ColTitles(nVars, nSlack)|
    ensures forall i, j :: 0 <= i < j < nVars ==> ColTitles(nVars, nSlack)[i] != ColTitles(nVars, nSlack)[j]
    ensures forall i :: 0 <= i < nVars ==> ColTitles(nVars, nSlack)[i] != "P"
  {
    ColTitlesDistinct(nVars, nSlack);
  }

  // ---------------------------------------------------------------------------
  // Pivot selection.

  /** sign = (objective == "min") - (objective == "max"). */
  function Sign(o: Objective): real {
    if o == Min then 1.0 else -1.0
  }

  /** k is where NumPy's argmax lands: a maximum, and the first one. */
  ghost predicate IsFirstArgMax(s: seq<real>, k: int) {
    && 0 <= k < |s|
    && (forall j :: 0 <= j < |s| ==> s[j] <= s[k])
    && (forall j :: 0 <= j < k ==> s[j] < s[k])
  }

  /** k is where nanargmin lands over the quotients rhs/coef computed only where
      coef > 0: a positive divisor, the least quotient, and the first one. */
  ghost predicate IsFirstMinRatio(rhs: seq<real>, coef: seq<real>, k: int)
    requires |rhs| == |coef|
  {
    && 0 <= k < |coef|
    && coef[k] > 0.0
    && (forall j :: 0 <= j < |coef| && coef[j] > 0.0 ==> rhs[k] / coef[k] <= rhs[j] / coef[j])
    && (forall j :: 0 <= j < k && coef[j] > 0.0 ==> rhs[k] / coef[k] < rhs[j] / coef[j])
  }

  /** np.argmax: the first index of a largest element. */
  function FirstArgMax(s: seq<real>): (k: nat)
    requires |s| > 0
    ensures IsFirstArgMax(s, k)
  {
    if |s| == 1 then 0
    else
      var k := FirstArgMax(s[..|s| - 1]);
      if s[|s| - 1] > s[k] then |s| - 1 else k
  }

  /** The ratio test of find_pivot (np.divide with where=divisor > 0, then
      np.nanargmin): None when no divisor is positive, where nanargmin raises. */
  function FirstMinRatio(rhs: seq<real>, coef: seq<real>): (r: Option<nat>)
    requires |rhs| == |coef|
    ensures r.None? <==> forall j :: 0 <= j < |coef| ==> coef[j] <= 0.0
    ensures r.Some? ==> IsFirstMinRatio(rhs, coef, r.value)
  {
    if |coef| == 0 then None
    else
      var n := |coef| - 1;
      var r := FirstMinRatio(rhs[..n], coef[..n]);
      if coef[n] > 0.0 && (r.None? || rhs[n] / coef[n] < rhs[r.value] / coef[r.value]) then Some(n)
      else r
  }

  /** sign * tableau[0, :-1]. */
  function SignedObjectiveRow(t: seq<seq<real>>, cols: nat, o: Objective): (s: seq<real>)
    requires |t| > 0 && AllOfWidth(t, cols) && cols >= 1
    ensures |s| == cols - 1
  {
    seq(cols - 1, j requires 0 <= j < cols - 1 => Sign(o) * t[0][j])
  }

  /** Column c of the rows from..|t|-1. */
  function ColumnFrom(t: seq<seq<real>>, cols: nat, c: nat, from: nat): (s: seq<real>)
    requires AllOfWidth(t, cols) && c < cols && from <= |t|
    ensures |s| == |t| - from
  {
    seq(|t| - from, k requires 0 <= k < |t| - from => t[from + k][c])
  }

  /** Row r is the leaving row for entering column c: the first row at or after
      the objective rows that wins the ratio test. */
  ghost predicate IsLeavingRow(t: seq<seq<real>>, cols: nat, stages: nat, c: nat, r: int)
    requires AllOfWidth(t, cols) && c < cols && stages <= |t| && cols >= 1
  {
    stages <= r && IsFirstMinRatio(ColumnFrom(t, cols, cols - 1, stages), ColumnFrom(t, cols, c, stages), r - stages)
  }

  /** find_pivot stops: the signed objective row (without the RHS) has no
      positive entry at its first argmax. */
  ghost predicate AtOptimum(t: seq<seq<real>>, cols: nat, objectives: seq<Objective>)
    requires AllOfWidth(t, cols)
  {
    && objectives != [] && |t| > 0 && cols > 1
    && var row := SignedObjectiveRow(t, cols, objectives[|objectives| - 1]);
       row[FirstArgMax(row)] <= 0.0
  }

  /** What find_pivot returns: the errors in the order the code meets them,
      (0, 0) at the optimum, else the ratio-test row and the entering column. */
  function PivotSearch(t: seq<seq<real>>, cols: nat, stages: nat, objectives: seq<Objective>): (r: Result<(nat, nat), SimplexError>)
    requires AllOfWidth(t, cols) && cols >= 1
    ensures r.Success? ==> r.value.0 < |t| && r.value.1 < cols
  {
    if objectives == [] then Failure(NoObjective)
    else if |t| == 0 then Failure(NoObjectiveRow)
    else if cols == 1 then Failure(NoVariableColumn)
    else
      var row := SignedObjectiveRow(t, cols, objectives[|objectives| - 1]);
      var c := FirstArgMax(row);
      if row[c] <= 0.0 then Success((0, 0))
      else if stages > |t| then Failure(NoLeavingRow)
      else
        match FirstMinRatio(ColumnFrom(t, cols, cols - 1, stages), ColumnFrom(t, cols, c, stages))
        case None => Failure(NoLeavingRow)
        case Some(k) => Success((stages + k, c))
  }

  /** The optimum test means what the simplex method needs: no column of the
      signed objective row would improve the objective. */
  lemma AtOptimumIffNoImprovingColumn(t: seq<seq<real>>, cols: nat, objectives: seq<Objective>)
    requires AllOfWidth(t, cols) && objectives != [] && |t| > 0 && cols > 1
    ensures AtOptimum(t, cols, objectives) <==>
      forall j :: 0 <= j < cols - 1 ==> Sign(objectives[|objectives| - 1]) * t[0][j] <= 0.0
  {
    var row := SignedObjectiveRow(t, cols, objectives[|objectives| - 1]);
    var c := FirstArgMax(row);
    assert forall j :: 0 <= j < cols - 1 ==> row[j] == Sign(objectives[|objectives| - 1]) * t[0][j];
  }

  /** Away from the optimum a successful search enters at the first column of
      largest signed objective entry, which is positive, and leaves at the
      first constraint row of least ratio rhs / coefficient over positive
      coefficients. */
  lemma PivotSearchChoosesPivot(t: seq<seq<real>>, cols: nat, stages: nat, objectives: seq<Objective>)
    requires AllOfWidth(t, cols) && cols >= 1
    requires PivotSearch(t, cols, stages, objectives).Success? && !AtOptimum(t, cols, objectives)
    ensures var (r, c) := PivotSearch(t, cols, stages, objectives).value;
      && objectives != [] && |t| > 0 && stages <= |t| && c < cols - 1
      && IsFirstArgMax(SignedObjectiveRow(t, cols, objectives[|objectives| - 1]), c)
      && Sign(objectives[|objectives| - 1]) * t[0][c] > 0.0
      && IsLeavingRow(t, cols, stages, c, r)
  {
  }

  /** Every constraint row (at or after the objective rows) has a non-negative RHS. */
  ghost predicate ConstraintRhsNonNegative(t: seq<seq<real>>, cols: nat, stages: int)
    requires AllOfWidth(t, cols) && cols >= 1
  {
    forall i :: 0 <= stages <= i < |t| ==> t[i][cols - 1] >= 0.0
  }

  // ---------------------------------------------------------------------------
  // Pivot execution.

  /** piv_row *= 1 / piv_val. */
  function NormalisedRow(row: seq<real>, p: real): (s: seq<real>)
    requires p != 0.0
    ensures |s| == |row|
  {
    seq(|row|, j requires 0 <= j < |row| => row[j] * (1.0 / p))
  }

  /** tableau[idx] += -coeff * piv_row. */
  function EliminatedRow(row: seq<real>, coeff: real, pivRow: seq<real>): (s: seq<real>)
    requires |row| == |pivRow|
    ensures |s| == |row|
  {
    seq(|row|, j requires 0 <= j < |row| => row[j] + -coeff * pivRow[j])
  }

  /** The tableau after pivot(r, c): the pivot row divided by the pivot, and
      every other row reduced by its own entry in column c times that row. */
  function Pivoted(t: seq<seq<real>>, cols: nat, r: nat, c: nat): (u: seq<seq<real>>)
    requires AllOfWidth(t, cols) && r < |t| && c < cols && t[r][c] != 0.0
    ensures |u| == |t| && AllOfWidth(u, cols)
  {
    var pivRow := NormalisedRow(t[r], t[r][c]);
    seq(|t|, i requires 0 <= i < |t| => if i == r then pivRow else EliminatedRow(t[i], t[i][c], pivRow))
  }

  /** After pivot(r, c), column c is the unit vector e_r, the pivot row is the
      old one divided by the pivot, and row i != r has lost t[i][c] times the
      new pivot row. */
  lemma PivotedEntries(t: seq<seq<real>>, cols: nat, r: nat, c: nat)
    requires AllOfWidth(t, cols) && r < |t| && c < cols && t[r][c] != 0.0
    ensures forall i :: 0 <= i < |t| ==> Pivoted(t, cols, r, c)[i][c] == if i == r then 1.0 else 0.0
    ensures forall j :: 0 <= j < cols ==> Pivoted(t, cols, r, c)[r][j] == t[r][j] / t[r][c]
    ensures forall i, j :: 0 <= i < |t| && i != r && 0 <= j < cols ==>
      Pivoted(t, cols, r, c)[i][j] == t[i][j] - t[i][c] * (t[r][j] / t[r][c])
  {
    var pivRow := NormalisedRow(t[r], t[r][c]);
    assert pivRow[c] == 1.0;
  }

  /** A non-negative RHS over a positive pivot gives a non-negative ratio. */
  lemma RatioNonNegative(b: real, a: real)
    requires a > 0.0 && b >= 0.0
    ensures b / a >= 0.0
  {
  }

  /** One constraint row's new RHS, bi - ai * (br / ar), stays non-negative
      when ar > 0 and br / ar is no larger than the row's own ratio. */
  lemma EliminatedRhsNonNegative(ai: real, bi: real, ar: real, br: real)
    requires ar > 0.0 && br >= 0.0 && bi >= 0.0
    requires ai > 0.0 ==> br / ar <= bi / ai
    ensures bi - ai * (br / ar) >= 0.0
  {
    var q := br / ar;
    assert q >= 0.0;
    if ai > 0.0 {
      assert ai * (bi / ai) == bi;
      assert ai * q <= ai * (bi / ai);
    } else {
      assert ai * q <= 0.0;
    }
  }

  /** The ratio test's row keeps the RHS of constraint row i non-negative:
      the pivot row's becomes br / ar, every other row's bi - ai * (br / ar). */
  lemma PivotedRhsNonNegative(t: seq<seq<real>>, cols: nat, stages: nat, r: nat, c: nat, i: nat)
    requires AllOfWidth(t, cols) && cols >= 1 && c < cols && stages <= i < |t|
    requires IsLeavingRow(t, cols, stages, c, r)
    requires ConstraintRhsNonNegative(t, cols, stages)
    ensures r < |t| && t[r][c] > 0.0
    ensures Pivoted(t, cols, r, c)[i][cols - 1] >= 0.0
  {
    var last := cols - 1;
    var rhs := ColumnFrom(t, cols, last, stages);
    var coef := ColumnFrom(t, cols, c, stages);
    assert coef[r - stages] == t[r][c] && rhs[r - stages] == t[r][last];
    assert coef[i - stages] == t[i][c] && rhs[i - stages] == t[i][last];
    PivotedEntries(t, cols, r, c);
    if i == r {
      RatioNonNegative(t[r][last], t[r][c]);
    } else {
      EliminatedRhsNonNegative(t[i][c], t[i][last], t[r][c], t[r][last]);
    }
  }

  /** A pivot on the row chosen by the ratio test keeps every constraint RHS
      non-negative. */
  lemma {:induction false} PivotKeepsRhsNonNegative(t: seq<seq<real>>, cols: nat, stages: nat, r: nat, c: nat)
    requires AllOfWidth(t, cols) && cols >= 1 && c < cols && stages <= |t|
    requires IsLeavingRow(t, cols, stages, c, r)
    requires ConstraintRhsNonNegative(t, cols, stages)
    ensures r < |t| && t[r][c] > 0.0
    ensures ConstraintRhsNonNegative(Pivoted(t, cols, r, c), cols, stages)
  {
    var rhs := ColumnFrom(t, cols, cols - 1, stages);
    var coef := ColumnFrom(t, cols, c, stages);
    assert coef[r - stages] == t[r][c];
    forall i | stages <= i < |t| ensures Pivoted(t, cols, r, c)[i][cols - 1] >= 0.0 {
      PivotedRhsNonNegative(t, cols, stages, r, c, i);
    }
  }

  // ---------------------------------------------------------------------------
  // Stage change.

  /** np.delete(row, slice(-nArt - 1, -1)): drops the nArt columns just before
      the RHS (fewer when there are not that many). */
  function DropArtificialColumns(row: seq<real>, nArt: nat): (s: seq<real>)
    requires |row| >= 1
    ensures |s| == |row| - (if nArt < |row| - 1 then nArt else |row| - 1)
  {
    var lo := if |row| - 1 - nArt < 0 then 0 else |row| - 1 - nArt;
    row[..lo] + row[|row| - 1..]
  }

  /** The stage-two tableau: row 0 gone, the artificial columns gone, every
      other row and column kept in order. */
  function Reduced(t: seq<seq<real>>, cols: nat, nArt: nat): (u: seq<seq<real>>)
    requires AllOfWidth(t, cols) && cols >= 1 && |t| >= 1
    ensures |u| == |t| - 1
    ensures AllOfWidth(u, cols - (if nArt < cols - 1 then nArt else cols - 1))
  {
    seq(|t| - 1, i requires 0 <= i < |t| - 1 => DropArtificialColumns(t[i + 1], nArt))
  }

  /** Row i of the reduced tableau is row i+1 of the old one, and the kept
      columns keep their order: those before the artificial block, then RHS. */
  lemma ReducedKeepsEntries(t: seq<seq<real>>, cols: nat, nArt: nat, i: nat)
    requires AllOfWidth(t, cols) && cols >= 1 && i + 1 < |t| && nArt <= cols - 1
    ensures var u := Reduced(t, cols, nArt);
      && |u[i]| == cols - nArt
      && (forall j :: 0 <= j < cols - 1 - nArt ==> u[i][j] == t[i + 1][j])
      && u[i][cols - nArt - 1] == t[i + 1][cols - 1]
  {
  }

  /** Leaving stage one keeps every constraint RHS non-negative: the old
      constraint rows are exactly the new ones and the RHS column survives. */
  lemma {:induction false} ReducedKeepsRhsNonNegative(t: seq<seq<real>>, cols: nat, nArt: nat)
    requires AllOfWidth(t, cols) && cols >= 1 && |t| >= 1
    requires ConstraintRhsNonNegative(t, cols, 2)
    ensures var k := cols - (if nArt < cols - 1 then nArt else cols - 1);
      k >= 1 && ConstraintRhsNonNegative(Reduced(t, cols, nArt), k, 1)
  {
    var k := cols - (if nArt < cols - 1 then nArt else cols - 1);
    var u := Reduced(t, cols, nArt);
    forall i | 1 <= i < |u| ensures u[i][k - 1] >= 0.0 {
      assert u[i] == DropArtificialColumns(t[i + 1], nArt);
      assert u[i][k - 1] == t[i + 1][cols - 1];
    }
  }

  // ---------------------------------------------------------------------------
  // Reading off the solution.

  /** The rows whose entry in column c is nonzero, in row order (np.nonzero). */
  function NonzeroRows(t: seq<seq<real>>, cols: nat, c: nat): (rows: seq<nat>)
    requires AllOfWidth(t, cols) && c < cols
    ensures forall k :: 0 <= k < |rows| ==> rows[k] < |t| && t[rows[k]][c] != 0.0
    ensures forall i :: 0 <= i < |t| && t[i][c] != 0.0 ==> i in rows
    ensures forall k, l :: 0 <= k < l < |rows| ==> rows[k] < rows[l]
  {
    if |t| == 0 then []
    else
      var front := NonzeroRows(t[..|t| - 1], cols, c);
      if t[|t| - 1][c] != 0.0 then front + [|t| - 1] else front
  }

  /** Column c has exactly one nonzero entry and that entry is 1. */
  ghost predicate IsBasicColumn(t: seq<seq<real>>, cols: nat, c: nat)
    requires AllOfWidth(t, cols) && c < cols
  {
    var nz := NonzeroRows(t, cols, c);
    |nz| == 1 && t[nz[0]][c] == 1.0
  }

  /** The value interpret_tableau reads for column c: the RHS of its one
      nonzero row when the column is basic, nothing otherwise. */
  function BasicValue(t: seq<seq<real>>, cols: nat, c: nat): Option<real>
    requires AllOfWidth(t, cols) && c < cols && cols >= 1
  {
    var nz := NonzeroRows(t, cols, c);
    if |nz| == 1 && t[nz[0]][c] == 1.0 then Some(t[nz[0]][cols - 1]) else None
  }

  /** The map built from "P" := p by giving titles[i] the value values[i],
      for each i < n that has one, in order. */
  ghost function Assemble(p: real, titles: seq<string>, values: seq<Option<real>>, n: nat): map<string, real>
    requires n <= |titles| && n <= |values|
  {
    if n == 0 then map["P" := p]
    else
      var m := Assemble(p, titles, values, n - 1);
      match values[n - 1]
      case Some(v) => m[titles[n - 1] := v]
      case None => m
  }

  /** The assembled map always holds "P", and every other key is one of the
      first n titles. */
  lemma {:induction false} AssembleKeys(p: real, titles: seq<string>, values: seq<Option<real>>, n: nat)
    requires n <= |titles| && n <= |values|
    ensures "P" in Assemble(p, titles, values, n)
    ensures forall k :: k in Assemble(p, titles, values, n) && k != "P" ==> k in titles[..n]
  {
    if n > 0 {
      AssembleKeys(p, titles, values, n - 1);
      assert titles[..n] == titles[..n - 1] + [titles[n - 1]];
    }
  }

  /** With distinct titles other than "P", "P" keeps p, and titles[i] is a key
      exactly when values[i] is present, mapped to that value. */
  lemma {:induction false} AssembleAt(p: real, titles: seq<string>, values: seq<Option<real>>, n: nat, i: nat)
    requires n <= |titles| && n <= |values| && i < n
    requires forall a, b :: 0 <= a < b < n ==> titles[a] != titles[b]
    requires forall a :: 0 <= a < n ==> titles[a] != "P"
    ensures "P" in Assemble(p, titles, values, n) && Assemble(p, titles, values, n)["P"] == p
    ensures titles[i] in Assemble(p, titles, values, n) <==> values[i].Some?
    ensures titles[i] in Assemble(p, titles, values, n) ==> Assemble(p, titles, values, n)[titles[i]] == values[i].value
  {
    var key := titles[n - 1];
    if i < n - 1 {
      AssembleAt(p, titles, values, n - 1, i);
      assert titles[i] != key;
    } else {
      AssembleKeys(p, titles, values, n - 1);
      assert forall a :: 0 <= a < n - 1 ==> titles[a] != key;
      assert key !in titles[..n - 1];
      if n > 1 {
        AssembleAt(p, titles, values, n - 1, 0);
      }
    }
  }

  /** The result map of interpret_tableau after its first n columns: "P" is
      |tableau[0][-1]|, and each basic column adds its title with the RHS of
      its one nonzero row. */
  ghost function Interpretation(t: seq<seq<real>>, cols: nat, titles: seq<string>, n: nat): map<string, real>
    requires AllOfWidth(t, cols) && |t| > 0 && cols >= 1 && n <= cols && n <= |titles|
  {
    if n == 0 then map["P" := AbsReal(t[0][cols - 1])]
    else
      var m := Interpretation(t, cols, titles, n - 1);
      match BasicValue(t, cols, n - 1)
      case Some(v) => m[titles[n - 1] := v]
      case None => m
  }

  /** The interpretation is the assembly of the column values. */
  lemma {:induction false} InterpretationAssembles(t: seq<seq<real>>, cols: nat, titles: seq<string>, n: nat, values: seq<Option<real>>)
    requires AllOfWidth(t, cols) && |t| > 0 && cols >= 1 && n <= cols && n <= |titles| && n <= |values|
    requires forall c :: 0 <= c < n ==> values[c] == BasicValue(t, cols, c)
    ensures Interpretation(t, cols, titles, n) == Assemble(AbsReal(t[0][cols - 1]), titles, values, n)
  {
    if n > 0 {
      InterpretationAssembles(t, cols, titles, n - 1, values);
      var m := Interpretation(t, cols, titles, n - 1);
      var v := BasicValue(t, cols, n - 1);
      assert values[n - 1] == v;
      assert Interpretation(t, cols, titles, n) == if v.Some? then m[titles[n - 1] := v.value] else m;
    }
  }

  /** The result map of interpret_tableau holds "P" = |tableau[0][-1]|; the
      title of column i is a key exactly when column i is basic, with that
      row's RHS as value; and there are no other keys. */
  ghost predicate IsInterpretation(t: seq<seq<real>>, cols: nat, titles: seq<string>, n: nat, m: map<string, real>)
    requires AllOfWidth(t, cols) && |t| > 0 && cols >= 1 && n <= cols && n <= |titles|
  {
    && "P" in m && m["P"] == AbsReal(t[0][cols - 1])
    && (forall i :: 0 <= i < n ==> (titles[i] in m <==> IsBasicColumn(t, cols, i)))
    && (forall i :: 0 <= i < n && titles[i] in m ==> m[titles[i]] == t[NonzeroRows(t, cols, i)[0]][cols - 1])
    && (forall k :: k in m && k != "P" ==> k in titles[..n])
  }

  /** With distinct titles other than "P", the map built column by column is
      exactly the interpretation. */
  lemma InterpretationCorrect(t: seq<seq<real>>, cols: nat, titles: seq<string>, n: nat)
    requires AllOfWidth(t, cols) && |t| > 0 && cols >= 1 && n <= cols && n <= |titles|
    requires forall i, j :: 0 <= i < j < n ==> titles[i] != titles[j]
    requires forall i :: 0 <= i < n ==> titles[i] != "P"
    ensures IsInterpretation(t, cols, titles, n, Interpretation(t, cols, titles, n))
  {
    var p := AbsReal(t[0][cols - 1]);
    var values := seq(n, c requires 0 <= c < n => BasicValue(t, cols, c));
    InterpretationAssembles(t, cols, titles, n, values);
    AssembleKeys(p, titles, values, n);
    if n == 0 {
      assert Assemble(p, titles, values, n)["P"] == p;
    }
    forall i | 0 <= i < n
      ensures "P" in Assemble(p, titles, values, n) && Assemble(p, titles, values, n)["P"] == p
      ensures titles[i] in Assemble(p, titles, values, n) <==> IsBasicColumn(t, cols, i)
      ensures titles[i] in Assemble(p, titles, values, n) ==>
        Assemble(p, titles, values, n)[titles[i]] == t[NonzeroRows(t, cols, i)[0]][cols - 1]
    {
      AssembleAt(p, titles, values, n, i);
      assert values[i] == BasicValue(t, cols, i);
    }
  }

  // ---------------------------------------------------------------------------
  // The run, as a function of the tableau's state.

  /** The fields of a Tableau that run_simplex changes. */
  datatype TableauState = TableauState(
    tableau: seq<seq<real>>, cols: nat, rows: int, stages: int, artificial: int,
    objectives: seq<Objective>, stop: bool)

  /** A rectangular array with an RHS column, n_rows its height, and
      non-negative stage and artificial counts. */
  ghost predicate Shaped(s: TableauState) {
    AllOfWidth(s.tableau, s.cols) && s.cols >= 1 && s.rows == |s.tableau| && s.stages >= 0 && s.artificial >= 0
  }

  /** change_stage on a state with an objective left: pop it; if another is
      left, drop row 0 and the artificial columns and reset the counts. */
  ghost function StageChanged(s: TableauState): (r: Result<TableauState, SimplexError>)
    requires Shaped(s) && s.objectives != []
    ensures r.Success? ==> Shaped(r.value)
  {
    var objectives := s.objectives[..|s.objectives| - 1];
    if objectives == [] then Success(s.(objectives := objectives))
    else if |s.tableau| == 0 then Failure(NoObjectiveRow)
    else
      var kept := s.cols - (if s.artificial < s.cols - 1 then s.artificial else s.cols - 1);
      Success(TableauState(Reduced(s.tableau, s.cols, s.artificial), kept, s.rows - 1, 1, 0, objectives, false))
  }

  /** One pass of run_simplex's loop once an objective is left: find_pivot,
      then change_stage when stop_iter is set, else pivot. */
  ghost function RoundStep(s: TableauState): (r: Result<TableauState, SimplexError>)
    requires Shaped(s)
    ensures r.Success? ==> Shaped(r.value)
  {
    match PivotSearch(s.tableau, s.cols, s.stages, s.objectives)
    case Failure(e) => Failure(e)
    case Success((row, col)) =>
      if s.stop || AtOptimum(s.tableau, s.cols, s.objectives) then StageChanged(s.(stop := true))
      else
        PivotSearchChoosesPivot(s.tableau, s.cols, s.stages, s.objectives);
        Success(s.(tableau := Pivoted(s.tableau, s.cols, row, col)))
  }

  /** A successful round either pivots, keeping the objective stack and the
      shape, or (once stop_iter is set or at the optimum) pops the active
      objective. */
  lemma RoundStepObjectives(s: TableauState)
    requires Shaped(s) && s.objectives != []
    ensures RoundStep(s).Success? && (s.stop || AtOptimum(s.tableau, s.cols, s.objectives)) ==>
      RoundStep(s).value.objectives == s.objectives[..|s.objectives| - 1]
    ensures RoundStep(s).Success? && !s.stop && !AtOptimum(s.tableau, s.cols, s.objectives) ==>
      RoundStep(s).value.objectives == s.objectives && RoundStep(s).value.cols == s.cols &&
      |RoundStep(s).value.tableau| == |s.tableau| && !RoundStep(s).value.stop
  {
  }

  /** interpret_tableau on a state: its two indexing errors, else the map. */
  ghost function Interpreted(s: TableauState, vars: int, titles: seq<string>): Result<map<string, real>, SimplexError>
    requires Shaped(s) && 0 <= vars < |titles|
  {
    if s.rows == 0 then Failure(NoObjectiveRow)
    else if vars > s.cols then Failure(ColumnOutOfRange)
    else Success(Interpretation(s.tableau, s.cols, titles, vars))
  }

  /** run_simplex with `fuel` iterations left: the first iteration that
      starts with no objective returns the interpretation, an error ends the
      run, and an exhausted budget gives the empty map. */
  ghost function Simulate(s: TableauState, vars: int, titles: seq<string>, fuel: nat): Result<map<string, real>, SimplexError>
    requires Shaped(s) && 0 <= vars < |titles|
    decreases fuel
  {
    if fuel == 0 then Success(map[])
    else if s.objectives == [] then Interpreted(s, vars, titles)
    else
      match RoundStep(s)
      case Failure(e) => Failure(e)
      case Success(next) => Simulate(next, vars, titles, fuel - 1)
  }

  /** Every one of the `fuel` iterations starts with an objective left and
      its round succeeds. */
  ghost predicate AllRoundsRun(s: TableauState, fuel: nat)
    requires Shaped(s)
    decreases fuel
  {
    fuel == 0 || (s.objectives != [] && RoundStep(s).Success? && AllRoundsRun(RoundStep(s).value, fuel - 1))
  }

  /** Simulate when the round budget is not spent: interpret the tableau
      once the objective stack is empty, run a round otherwise. */
  lemma SimulateUnfolds(s: TableauState, vars: int, titles: seq<string>, fuel: nat)
    requires Shaped(s) && 0 <= vars < |titles| && fuel > 0
    ensures s.objectives == [] ==> Simulate(s, vars, titles, fuel) == Interpreted(s, vars, titles)
    ensures s.objectives != [] && RoundStep(s).Failure? ==>
      Simulate(s, vars, titles, fuel) == Failure(RoundStep(s).error)
    ensures s.objectives != [] && RoundStep(s).Success? ==>
      Simulate(s, vars, titles, fuel) == Simulate(RoundStep(s).value, vars, titles, fuel - 1)
  {
  }

  /** The interpretation always holds "P", so it is never the empty map. */
  lemma InterpretationNonEmpty(t: seq<seq<real>>, cols: nat, titles: seq<string>, n: nat)
    requires AllOfWidth(t, cols) && |t| > 0 && cols >= 1 && n <= cols && n <= |titles|
    ensures "P" in Interpretation(t, cols, titles, n)
  {
    var values := seq(n, c requires 0 <= c < n => BasicValue(t, cols, c));
    InterpretationAssembles(t, cols, titles, n, values);
    AssembleKeys(AbsReal(t[0][cols - 1]), titles, values, n);
  }

  /** Interpreting a tableau never gives the empty map: "P" is always a key. */
  lemma InterpretedNotEmpty(s: TableauState, vars: int, titles: seq<string>)
    requires Shaped(s) && 0 <= vars < |titles|
    ensures Interpreted(s, vars, titles) != Success(map[])
  {
    if s.rows != 0 && vars <= s.cols {
      InterpretationNonEmpty(s.tableau, s.cols, titles, vars);
    }
  }

  /** run_simplex returns {} exactly when all its iterations ran: every one
      started with an objective left and none failed. Any earlier end gives
      an error or an interpretation, which is never empty. */
  lemma {:induction false} EmptyResultIffAllRoundsRun(s: TableauState, vars: int, titles: seq<string>, fuel: nat)
    requires Shaped(s) && 0 <= vars < |titles|
    decreases fuel
    ensures Simulate(s, vars, titles, fuel) == Success(map[]) <==> AllRoundsRun(s, fuel)
  {
    if fuel > 0 {
      SimulateUnfolds(s, vars, titles, fuel);
      if s.objectives == [] {
        InterpretedNotEmpty(s, vars, titles);
      } else {
        var step := RoundStep(s);
        if step.Success? {
          EmptyResultIffAllRoundsRun(step.value, vars, titles, fuel - 1);
        }
      }
    }
  }

  // ---------------------------------------------------------------------------
  // The engine.

  class Tableau {
    var tableau: seq<seq<real>>
    var nCols: nat
    var nRows: int
    var nVars: int
    var nArtificialVars: int
    var nStages: int
    var nSlack: int
    var objectives: seq<Objective>
    var colTitles: seq<string>
    var rowIdx: Option<int>
    var colIdx: Option<int>
    var stopIter: bool

    /** The array is rectangular, has an RHS column, and n_rows is its height. */
    ghost predicate WellShaped()
      reads this
    {
      AllOfWidth(tableau, nCols) && nCols >= 1 && nRows == |tableau|
    }

    /** The object invariant: the counts the constructor validated, one or two
        objective rows matching the objective stack, and the RHS of every
        constraint row non-negative. */
    ghost predicate Valid()
      reads this
    {
      && WellShaped()
      && nVars >= 2 && nArtificialVars >= 0
      && (nStages == 1 || nStages == 2)
      && (nStages == 2 <==> nArtificialVars > 0)
      && (objectives == [Min, Max] || objectives == [Max] || objectives == [Min] || objectives == [])
      && (objectives == [Min, Max] <==> nStages == 2)
      && colTitles == ColTitles(nVars, nSlack)
      && ConstraintRhsNonNegative(tableau, nCols, nStages)
    }

    /** The fields run_simplex changes. */
    ghost function State(): (s: TableauState)
      reads this
      ensures WellShaped() && nStages >= 0 && nArtificialVars >= 0 ==> Shaped(s)
    {
      TableauState(tableau, nCols, nRows, nStages, nArtificialVars, objectives, stopIter)
    }

    constructor Init(t: seq<seq<real>>, cols: nat, vars: int, artificial: int)
      requires AllOfWidth(t, cols) && cols >= 1
      requires forall i :: 0 <= i < |t| ==> t[i][cols - 1] >= 0.0
      requires vars >= 2 && artificial >= 0
      ensures Valid()
      ensures tableau == t && nCols == cols && nRows == |t|
      ensures nVars == vars && nArtificialVars == artificial
      ensures nStages == (if artificial > 0 then 2 else 1)
      ensures nSlack == cols - vars - artificial - 1
      ensures objectives == if artificial == 0 then [Max] else [Min, Max]
      ensures rowIdx == None && colIdx == None && !stopIter
    {
      tableau := t;
      nCols := cols;
      nRows := |t|;
      nVars, nArtificialVars := vars, artificial;
      nStages := if artificial > 0 then 2 else 1;
      nSlack := cols - vars - artificial - 1;
      objectives := if artificial == 0 then [Max] else [Min, Max];
      rowIdx, colIdx := None, None;
      stopIter := false;
      new;
      colTitles := GenerateColTitles();
    }

    /** Tableau.__init__: the dtype test, then the RHS test (an array without
        columns has no RHS to index), then the variable counts. */
    static method New(isFloat64: bool, t: seq<seq<real>>, cols: nat, vars: int, artificial: int)
      returns (r: Result<Tableau, SimplexError>)
      requires AllOfWidth(t, cols)
      ensures !isFloat64 ==> r == Failure(NotFloat64)
      ensures isFloat64 && cols == 0 ==> r == Failure(NoRhsColumn)
      ensures isFloat64 && cols >= 1 && (exists i :: 0 <= i < |t| && t[i][cols - 1] < 0.0) ==>
        r == Failure(NegativeRhs)
      ensures isFloat64 && cols >= 1 && (forall i :: 0 <= i < |t| ==> t[i][cols - 1] >= 0.0) ==>
        if vars < 2 || artificial < 0 then r == Failure(BadVariableCount) else
          r.Success? && fresh(r.value) && r.value.Valid()
          && r.value.tableau == t && r.value.nCols == cols && r.value.nVars == vars
          && r.value.nArtificialVars == artificial
          && r.value.nStages == (if artificial > 0 then 2 else 1)
          && r.value.nSlack == cols - vars - artificial - 1
          && r.value.objectives == (if artificial == 0 then [Max] else [Min, Max])
          && !r.value.stopIter
    {
      if !isFloat64 {
        return Failure(NotFloat64);
      }
      if cols == 0 {
        return Failure(NoRhsColumn);
      }
      for i := 0 to |t|
        invariant forall k :: 0 <= k < i ==> t[k][cols - 1] >= 0.0
      {
        if t[i][cols - 1] < 0.0 {
          return Failure(NegativeRhs);
        }
      }
      if vars < 2 || artificial < 0 {
        return Failure(BadVariableCount);
      }
      var tab := new Tableau.Init(t, cols, vars, artificial);
      return Success(tab);
    }

    /** generate_col_titles. */
    method GenerateColTitles() returns (titles: seq<string>)
      ensures titles == ColTitles(nVars, nSlack)
    {
      titles := [];
      // range() of a negative count is empty
      var varCount := if nVars < 0 then 0 else nVars;
      var slackCount := if nSlack < 0 then 0 else nSlack;
      for i := 0 to varCount
        invariant titles == seq(i, k requires 0 <= k => VarTitle(k))
      {
        titles := titles + ["x" + DecimalString(i + 1)];
      }
      var xs := titles;
      for i := 0 to slackCount
        invariant titles == xs + seq(i, k requires 0 <= k => SlackTitle(k))
      {
        titles := titles + ["s" + DecimalString(i + 1)];
      }
      titles := titles + ["RHS"];
    }

    /** find_pivot. The entering column is the first argmax of sign * row 0
        without the RHS, sign taken from the LAST objective on the stack. When
        that best value is not positive, stop_iter is set and (0, 0) returned.
        Otherwise the leaving row is the ratio-test winner among the constraint
        rows. Only stop_iter may change, and only in the stopping case. */
    method FindPivot() returns (r: Result<(nat, nat), SimplexError>)
      requires WellShaped() && nStages >= 0
      modifies this`stopIter
      ensures r == PivotSearch(tableau, nCols, nStages, objectives)
      ensures stopIter == (old(stopIter) || AtOptimum(tableau, nCols, objectives))
    {
      var t, cols, stages, objs := tableau, nCols, nStages, objectives;
      if objs == [] {
        return Failure(NoObjective);
      }
      var objective := objs[|objs| - 1];
      if nRows == 0 {
        return Failure(NoObjectiveRow);
      }
      if cols == 1 {
        return Failure(NoVariableColumn);
      }
      var row := SignedObjectiveRow(t, cols, objective);
      var col := FirstArgMax(row);
      if Sign(objective) * t[0][col] <= 0.0 {
        assert row[col] <= 0.0;
        stopIter := true;
        return Success((0, 0));
      }
      assert !AtOptimum(t, cols, objs);
      if stages > nRows {
        return Failure(NoLeavingRow);
      }
      var dividend := ColumnFrom(t, cols, cols - 1, stages);
      var divisor := ColumnFrom(t, cols, col, stages);
      match FirstMinRatio(dividend, divisor)
      case None =>
        return Failure(NoLeavingRow);
      case Some(k) =>
        return Success((k + stages, col));
    }

    /** pivot: Gauss-Jordan elimination on (rowIdx, colIdx), in place. Each row
        is reduced by its own old entry in the pivot column, read just before
        that row is rewritten, and the pivot row is then overwritten by the
        normalised copy. */
    method Pivot(rowIdx: nat, colIdx: nat)
      requires WellShaped() && rowIdx < nRows && colIdx < nCols && tableau[rowIdx][colIdx] != 0.0
      modifies this`tableau
      ensures WellShaped()
      ensures tableau == Pivoted(old(tableau), nCols, rowIdx, colIdx)
    {
      var pivRow := tableau[rowIdx];
      var pivVal := pivRow[colIdx];
      pivRow := NormalisedRow(pivRow, pivVal);
      for idx := 0 to |tableau|
        invariant |tableau| == |old(tableau)|
        invariant forall i :: 0 <= i < idx ==>
          tableau[i] == EliminatedRow(old(tableau)[i], old(tableau)[i][colIdx], pivRow)
        invariant forall i :: idx <= i < |tableau| ==> tableau[i] == old(tableau)[i]
      {
        var coeff := tableau[idx][colIdx];
        tableau := tableau[idx := EliminatedRow(tableau[idx], coeff, pivRow)];
      }
      tableau := tableau[rowIdx := pivRow];
      assert tableau == Pivoted(old(tableau), nCols, rowIdx, colIdx);
    }

    /** change_stage: pops the LAST objective. If none is left the tableau is
        kept; otherwise the artificial columns and row 0 are deleted and the
        bookkeeping moves to a single objective row. */
    method ChangeStage() returns (r: Outcome<SimplexError>)
      requires Valid()
      modifies this
      ensures old(objectives) == [] ==> r == Fail(NoObjective) && objectives == []
      ensures old(objectives) != [] ==> objectives == old(objectives)[..|old(objectives)| - 1]
      ensures |old(objectives)| == 1 ==> r == Pass && stopIter == old(stopIter)
      ensures |old(objectives)| <= 1 ==>
        && tableau == old(tableau) && nCols == old(nCols) && nRows == old(nRows)
        && nStages == old(nStages) && nArtificialVars == old(nArtificialVars)
      ensures |old(objectives)| == 2 ==>
        nCols == old(nCols) - (if old(nArtificialVars) < old(nCols) - 1 then old(nArtificialVars) else old(nCols) - 1)
      ensures |old(objectives)| == 2 && old(nRows) == 0 ==> r == Fail(NoObjectiveRow) && tableau == []
      ensures |old(objectives)| == 2 && old(nRows) >= 1 ==>
        && r == Pass
        && tableau == Reduced(old(tableau), old(nCols), old(nArtificialVars))
        && nRows == old(nRows) - 1 && nStages == 1 && nArtificialVars == 0 && !stopIter
      ensures nVars == old(nVars) && nSlack == old(nSlack) && colTitles == old(colTitles)
      ensures r == Pass ==> Valid()
    {
      if objectives == [] {
        return Fail(NoObjective);
      }
      objectives := objectives[..|objectives| - 1];
      if objectives == [] {
        return Pass;
      }
      var kept := nCols - (if nArtificialVars < nCols - 1 then nArtificialVars else nCols - 1);
      if nRows == 0 {
        nCols := kept;
        return Fail(NoObjectiveRow);
      }
      ReducedKeepsRhsNonNegative(tableau, nCols, nArtificialVars);
      tableau := Reduced(tableau, nCols, nArtificialVars);
      nCols := kept;
      nStages := 1;
      nRows := nRows - 1;
      nArtificialVars := 0;
      stopIter := false;
      return Pass;
    }

    /** interpret_tableau; it changes nothing, and since its result is pinned
        down completely, calling it twice gives the same map. */
    method InterpretTableau() returns (r: Result<map<string, real>, SimplexError>)
      requires WellShaped() && 0 <= nVars < |colTitles|
      ensures nRows == 0 ==> r == Failure(NoObjectiveRow)
      ensures nRows > 0 && nVars > nCols ==> r == Failure(ColumnOutOfRange)
      ensures nRows > 0 && nVars <= nCols ==> r == Success(Interpretation(tableau, nCols, colTitles, nVars))
    {
      if nRows == 0 {
        return Failure(NoObjectiveRow);
      }
      var t, cols, titles, n := tableau, nCols, colTitles, nVars;
      var p := AbsReal(t[0][cols - 1]);
      var out := map["P" := p];
      for i := 0 to n
        invariant i <= cols
        invariant out == Interpretation(t, cols, titles, i)
      {
        if i >= cols {
          return Failure(ColumnOutOfRange);
        }
        // np.nonzero on column i: one entry, and it is 1
        match BasicValue(t, cols, i)
        case Some(v) =>
          out := out[titles[i] := v];
        case None =>
      }
      return Success(out);
    }

    /** pivot on the row the ratio test chose: the invariant survives,
        because no constraint RHS becomes negative. */
    method PivotOnLeavingRow(row: nat, col: nat)
      requires Valid() && col < nCols && nStages <= |tableau|
      requires IsLeavingRow(tableau, nCols, nStages, col, row)
      modifies this`tableau
      ensures Valid()
      ensures tableau == Pivoted(old(tableau), nCols, row, col)
    {
      PivotKeepsRhsNonNegative(tableau, nCols, nStages, row, col);
      Pivot(row, col);
    }

    /** One round of run_simplex's loop once an objective is known to be
        left: find the pivot, then change stage when stop_iter is set and
        pivot otherwise. A find_pivot error is passed on. */
    method Round() returns (r: Outcome<SimplexError>)
      requires Valid() && objectives != []
      modifies this
      ensures Valid()
      ensures nVars == old(nVars) && nSlack == old(nSlack) && colTitles == old(colTitles)
      ensures r.Fail? <==> RoundStep(old(State())).Failure?
      ensures r.Fail? ==> r.error == RoundStep(old(State())).error
      ensures r.Pass? ==> State() == RoundStep(old(State())).value
    {
      ghost var s := State();
      var p := FindPivot();
      if p.Failure? {
        return Fail(p.error);
      }
      if stopIter {
        r := ChangeStage();
        assert r == Pass;
      } else {
        var (row, col) := p.value;
        PivotSearchChoosesPivot(tableau, nCols, nStages, objectives);
        PivotOnLeavingRow(row, col);
        r := Pass;
      }
    }

    /** run_simplex: at most MaxIter rounds. The result is Simulate of the
        starting state: the interpretation the first time a round starts with
        no objective left, an error a round raises, or the empty map once
        the budget is spent (EmptyResultIffAllRoundsRun). The object
        invariant, and with it every constraint RHS >= 0, holds throughout. */
    method RunSimplex() returns (r: Result<map<string, real>, SimplexError>)
      requires Valid()
      modifies this
      ensures Valid()
      ensures nVars == old(nVars) && nSlack == old(nSlack) && colTitles == old(colTitles)
      ensures 0 <= nVars < |colTitles| && r == Simulate(old(State()), nVars, colTitles, MaxIter)
      ensures r.Success? && r.value != map[] ==>
        objectives == [] && nRows > 0 && nVars <= nCols
        && r.value == Interpretation(tableau, nCols, colTitles, nVars)
    {
      VarTitlesAreKeys(nVars, nSlack);
      for iteration := 0 to MaxIter
        invariant Valid()
        invariant nVars == old(nVars) && nSlack == old(nSlack) && colTitles == old(colTitles)
        invariant Simulate(old(State()), nVars, colTitles, MaxIter) == Simulate(State(), nVars, colTitles, MaxIter - iteration)
      {
        ghost var before := State();
        SimulateUnfolds(before, nVars, colTitles, MaxIter - iteration);
        if objectives == [] {
          r := InterpretTableau();
          return;
        }
        var outcome := Round();
        if outcome.Fail? {
          return Failure(outcome.error);
        }
      }
      r := Success(map[]);
    }
  }
}
