/** Gauss-Jordan elimination with partial pivoting (bench/metrics/costmodel.py). */
module LinearSolver {
  import opened Basics
  import opened LinearAlgebra

  const SINGULAR_PIVOT_EPS: real := 0.000000001

  // ------------------------------------------------------------ specification

  /** The first row at or after `best` whose entry in column `col` is largest in magnitude. */
  function PivotFrom(m: Rows, n: nat, col: nat, best: nat, r: nat): (p: nat)
    requires Shape(m, n) && col <= best < r <= n
    requires forall i :: col <= i < r ==> Abs(m[i][col]) <= Abs(m[best][col])
    ensures col <= p < n
    ensures forall i :: col <= i < n ==> Abs(m[i][col]) <= Abs(m[p][col])
    decreases n - r
  {
    if r == n then best
    else if Abs(m[r][col]) > Abs(m[best][col]) then PivotFrom(m, n, col, r, r + 1)
    else PivotFrom(m, n, col, best, r + 1)
  }

  function PivotRow(m: Rows, n: nat, col: nat): (p: nat)
    requires Shape(m, n) && col < n
    ensures col <= p < n
    ensures forall i :: col <= i < n ==> Abs(m[i][col]) <= Abs(m[p][col])
  {
    PivotFrom(m, n, col, col, col + 1)
  }

  function Swapped(m: Rows, i: nat, j: nat): (r: Rows)
    requires i < |m| && j < |m|
    ensures |r| == |m|
  {
    m[i := m[j]][j := m[i]]
  }

  function Eliminated(m: Rows, n: nat, col: nat): (r: Rows)
    requires Shape(m, n) && col < n && m[col][col] != 0.0
    ensures Shape(r, n)
  {
    seq(n, i requires 0 <= i < n =>
      if i == col then m[i] else SubScaled(m[i], m[i][col] / m[col][col], m[col]))
  }

  /** Columns before `col` are already those of a nonzero diagonal. */
  ghost predicate DiagonalTo(m: Rows, n: nat, col: nat)
    requires Shape(m, n) && col <= n
  {
    && (forall j :: 0 <= j < col ==> m[j][j] != 0.0)
    && (forall i, j :: 0 <= i < n && 0 <= j < col && i != j ==> m[i][j] == 0.0)
  }

  /** Elimination from column `col` on, giving up when the best pivot is below `eps`. */
  function Reduced(m: Rows, n: nat, col: nat, eps: real): (r: Option<Rows>)
    requires Shape(m, n) && col <= n && eps > 0.0
    ensures r.Some? ==> Shape(r.value, n)
    decreases n - col
  {
    if col == n then Some(m)
    else
      var p := PivotRow(m, n, col);
      if Abs(m[p][col]) < eps then None
      else Reduced(Eliminated(Swapped(m, col, p), n, col), n, col + 1, eps)
  }

  function Augmented(matrix: Rows, rhs: Vec): (m: Rows)
    requires Square(matrix, |rhs|)
    ensures Shape(m, |rhs|)
  {
    seq(|rhs|, i requires 0 <= i < |rhs| => matrix[i] + [rhs[i]])
  }

  predicate Square(matrix: Rows, n: nat) {
    |matrix| == n && forall i :: 0 <= i < n ==> |matrix[i]| == n
  }

  ghost predicate Solves(matrix: Rows, rhs: Vec, x: Vec)
    requires Square(matrix, |rhs|)
  {
    |x| == |rhs| && forall i :: 0 <= i < |rhs| ==> Dot(matrix[i], x) == rhs[i]
  }

  /** The matrix maps some nonzero vector to zero. */
  ghost predicate Singular(matrix: Rows, n: nat)
    requires Square(matrix, n)
  {
    exists v: Vec :: InKernel(matrix, n, v) && exists k :: 0 <= k < n && v[k] != 0.0
  }

  ghost predicate InKernel(matrix: Rows, n: nat, v: Vec)
    requires Square(matrix, n)
  {
    |v| == n && forall i :: 0 <= i < n ==> Dot(matrix[i], v) == 0.0
  }

  // ------------------------------------------------------------ one column

  lemma {:induction false} SwapKeepsSolutions(m: Rows, n: nat, i: nat, j: nat, y: Vec)
    requires Shape(m, n) && i < n && j < n && |y| == n + 1
    ensures Annihilates(Swapped(m, i, j), n, y) <==> Annihilates(m, n, y)
  {
    var s := Swapped(m, i, j);
    if Annihilates(s, n, y) {
      forall k | 0 <= k < n ensures Dot(m[k], y) == 0.0 {
        var k' := if k == i then j else if k == j then i else k;
        assert s[k'] == m[k];
      }
    }
  }

  lemma {:induction false} EliminateKeepsSolutions(m: Rows, n: nat, col: nat, y: Vec)
    requires Shape(m, n) && col < n && m[col][col] != 0.0 && |y| == n + 1
    ensures Annihilates(Eliminated(m, n, col), n, y) <==> Annihilates(m, n, y)
  {
    hide Dot, SubScaled;
    var e := Eliminated(m, n, col);
    assert e[col] == m[col];
    if Dot(m[col], y) == 0.0 {
      forall i | 0 <= i < n && i != col ensures Dot(e[i], y) == Dot(m[i], y) {
        var f := m[i][col] / m[col][col];
        DotSubScaled(m[i], f, m[col], y);
        assert e[i] == SubScaled(m[i], f, m[col]);
      }
    }
  }

  lemma {:induction false} EliminateExtendsDiagonal(m: Rows, n: nat, col: nat, p: nat)
    requires Shape(m, n) && col <= p < n && DiagonalTo(m, n, col) && m[p][col] != 0.0
    ensures DiagonalTo(Eliminated(Swapped(m, col, p), n, col), n, col + 1)
  {
    var s := Swapped(m, col, p);
    var e := Eliminated(s, n, col);
    assert DiagonalTo(s, n, col);
    forall i, j | 0 <= i < n && 0 <= j < col + 1 && i != j ensures e[i][j] == 0.0 {
      if i != col && j == col {
        var pivot, entry := s[col][col], s[i][col];
        assert e[i][j] == entry - (entry / pivot) * pivot;
      }
    }
  }

  // ------------------------------------------------------------ whole elimination

  lemma {:induction false} ReducedIsDiagonal(m: Rows, n: nat, col: nat, eps: real)
    requires Shape(m, n) && col <= n && eps > 0.0 && DiagonalTo(m, n, col)
    requires Reduced(m, n, col, eps).Some?
    ensures DiagonalTo(Reduced(m, n, col, eps).value, n, n)
    decreases n - col
  {
    if col < n {
      var p := PivotRow(m, n, col);
      EliminateExtendsDiagonal(m, n, col, p);
      ReducedIsDiagonal(Eliminated(Swapped(m, col, p), n, col), n, col + 1, eps);
    }
  }

  /** Elimination changes neither the solutions (y[n] == -1) nor the kernel (y[n] == 0). */
  lemma {:induction false} ReducedKeepsSolutions(m: Rows, n: nat, col: nat, eps: real, y: Vec)
    requires Shape(m, n) && col <= n && eps > 0.0 && |y| == n + 1
    requires Reduced(m, n, col, eps).Some?
    ensures Annihilates(Reduced(m, n, col, eps).value, n, y) <==> Annihilates(m, n, y)
    decreases n - col
  {
    hide Annihilates, Eliminated;
    if col < n {
      var p := PivotRow(m, n, col);
      var s := Swapped(m, col, p);
      SwapKeepsSolutions(m, n, col, p, y);
      EliminateKeepsSolutions(s, n, col, y);
      ReducedKeepsSolutions(Eliminated(s, n, col), n, col + 1, eps, y);
    }
  }

  lemma {:induction false} SolveForOne(d: real, z: real, q: real)
    requires d != 0.0
    ensures d * z + q == 0.0 <==> z == -q / d
  {
    assert d * (-q / d) == -q;
    if d * z + q == 0.0 {
      assert z == (d * z) / d;
    }
  }

  // ------------------------------------------------------------ the solver

  function Diagonalised(m: Rows, n: nat, eps: real): (d: Option<Rows>)
    requires Shape(m, n) && eps > 0.0
    ensures d == Reduced(m, n, 0, eps)
    ensures d.Some? ==> Shape(d.value, n) && forall i :: 0 <= i < n ==> d.value[i][i] != 0.0
  {
    var d := Reduced(m, n, 0, eps);
    assert d.Some? ==> DiagonalTo(d.value, n, n) by {
      if d.Some? { ReducedIsDiagonal(m, n, 0, eps); }
    }
    d
  }

  function ReadOff(d: Rows, n: nat): (x: Vec)
    requires Shape(d, n) && forall i :: 0 <= i < n ==> d[i][i] != 0.0
    ensures |x| == n && forall i :: 0 <= i < n ==> x[i] == d[i][n] / d[i][i]
  {
    seq(n, i requires 0 <= i < n => d[i][n] / d[i][i])
  }

  function Solution(matrix: Rows, rhs: Vec): (x: Option<Vec>)
    requires Square(matrix, |rhs|)
    ensures x.Some? ==> |x.value| == |rhs|
  {
    var d := Diagonalised(Augmented(matrix, rhs), |rhs|, SINGULAR_PIVOT_EPS);
    if d.None? then None else Some(ReadOff(d.value, |rhs|))
  }

  lemma {:induction false} DotAppend(row: Vec, r: real, x: Vec, last: real)
    requires |row| == |x|
    ensures Dot(row + [r], x + [last]) == Dot(row, x) + r * last
  {
    assert (row + [r])[..|row|] == row && (x + [last])[..|x|] == x;
  }

  lemma {:induction false} AnnihilatingIsSolving(matrix: Rows, rhs: Vec, x: Vec)
    requires Square(matrix, |rhs|) && |x| == |rhs|
    ensures Annihilates(Augmented(matrix, rhs), |rhs|, x + [-1.0]) <==> Solves(matrix, rhs, x)
    ensures Annihilates(Augmented(matrix, rhs), |rhs|, x + [0.0]) <==> InKernel(matrix, |rhs|, x)
  {
    var m := Augmented(matrix, rhs);
    forall i | 0 <= i < |rhs|
      ensures Dot(m[i], x + [-1.0]) == Dot(matrix[i], x) - rhs[i]
      ensures Dot(m[i], x + [0.0]) == Dot(matrix[i], x)
    {
      DotAppend(matrix[i], rhs[i], x, -1.0);
      DotAppend(matrix[i], rhs[i], x, 0.0);
    }
  }

  lemma {:induction false} ReadOffDiagonal(d: Rows, n: nat, y: Vec)
    requires Shape(d, n) && DiagonalTo(d, n, n) && |y| == n
    ensures Annihilates(d, n, y + [-1.0]) <==> y == ReadOff(d, n)
    ensures Annihilates(d, n, y + [0.0]) <==> forall i :: 0 <= i < n ==> y[i] == 0.0
  {
    var x := ReadOff(d, n);
    forall i | 0 <= i < n
      ensures Dot(d[i], y + [-1.0]) == 0.0 <==> y[i] == x[i]
      ensures Dot(d[i], y + [0.0]) == 0.0 <==> y[i] == 0.0
    {
      DotTwoTerms(d[i], y + [-1.0], i, n);
      DotTwoTerms(d[i], y + [0.0], i, n);
      SolveForOne(d[i][i], y[i], -d[i][n]);
    }
    assert y == x <==> forall i :: 0 <= i < n ==> y[i] == x[i];
  }

  /** Reading off the diagonal gives the solutions and the kernel of the system. */
  lemma {:induction false} ReadOffMeaning(matrix: Rows, rhs: Vec, eps: real, y: Vec)
    requires Square(matrix, |rhs|) && eps > 0.0 && |y| == |rhs|
    requires Diagonalised(Augmented(matrix, rhs), |rhs|, eps).Some?
    ensures Solves(matrix, rhs, y) <==>
      y == ReadOff(Diagonalised(Augmented(matrix, rhs), |rhs|, eps).value, |rhs|)
    ensures InKernel(matrix, |rhs|, y) <==> forall i :: 0 <= i < |y| ==> y[i] == 0.0
  {
    var n, m := |rhs|, Augmented(matrix, rhs);
    var d := Diagonalised(m, n, eps).value;
    ReducedIsDiagonal(m, n, 0, eps);
    ReducedKeepsSolutions(m, n, 0, eps, y + [-1.0]);
    ReducedKeepsSolutions(m, n, 0, eps, y + [0.0]);
    AnnihilatingIsSolving(matrix, rhs, y);
    ReadOffDiagonal(d, n, y);
  }

  /** A returned solution satisfies every original equation exactly, and nothing else does. */
  lemma {:induction false} SolutionIsExactAndUnique(matrix: Rows, rhs: Vec)
    requires Square(matrix, |rhs|) && Solution(matrix, rhs).Some?
    ensures Solves(matrix, rhs, Solution(matrix, rhs).value)
    ensures forall y: Vec :: Solves(matrix, rhs, y) ==> y == Solution(matrix, rhs).value
  {
    var x := Solution(matrix, rhs).value;
    forall y: Vec | |y| == |rhs|
      ensures Solves(matrix, rhs, y) <==> y == x
    {
      ReadOffMeaning(matrix, rhs, SINGULAR_PIVOT_EPS, y);
    }
  }

  /** A matrix that sends some nonzero vector to zero is refused, whatever the right-hand side. */
  lemma {:induction false} SingularIsRefused(matrix: Rows, rhs: Vec)
    requires Square(matrix, |rhs|) && Singular(matrix, |rhs|)
    ensures Solution(matrix, rhs).None?
  {
    if Solution(matrix, rhs).Some? {
      var v: Vec :| InKernel(matrix, |rhs|, v) && exists k :: 0 <= k < |rhs| && v[k] != 0.0;
      ReadOffMeaning(matrix, rhs, SINGULAR_PIVOT_EPS, v);
    }
  }

  // ------------------------------------------------------------ exactly when a system is refused

  lemma {:induction false} PivotScales(m: Rows, n: nat, s: real, col: nat, best: nat, r: nat)
    requires Shape(m, n) && col <= best < r <= n && s > 0.0
    requires forall i :: col <= i < r ==> Abs(m[i][col]) <= Abs(m[best][col])
    requires forall i :: col <= i < r ==> Abs(ScaledRows(s, m)[i][col]) <= Abs(ScaledRows(s, m)[best][col])
    ensures PivotFrom(ScaledRows(s, m), n, col, best, r) == PivotFrom(m, n, col, best, r)
    decreases n - r
  {
    if r < n {
      var sm := ScaledRows(s, m);
      assert sm[r] == ScaledVec(s, m[r]) && sm[best] == ScaledVec(s, m[best]);
      AbsScales(s, m[best][col], sm[best][col]);
      MagnitudeScales(s, m[r][col], sm[r][col], Abs(m[best][col]), Abs(sm[best][col]));
      if Abs(m[r][col]) > Abs(m[best][col]) {
        PivotScales(m, n, s, col, r, r + 1);
      } else {
        PivotScales(m, n, s, col, best, r + 1);
      }
    }
  }

  lemma {:induction false} AbsScales(s: real, x: real, sx: real)
    requires s > 0.0 && sx == s * x
    ensures Abs(sx) == s * Abs(x)
  {
    MulKeepsOrder(s, x, 0.0);
  }

  lemma {:induction false} MagnitudeScales(s: real, x: real, sx: real, bound: real, sbound: real)
    requires s > 0.0 && sx == s * x && sbound == s * bound
    ensures Abs(sx) < sbound <==> Abs(x) < bound
    ensures Abs(sx) > sbound <==> Abs(x) > bound
    ensures sx == 0.0 <==> x == 0.0
  {
    AbsScales(s, x, sx);
    MulKeepsOrder(s, Abs(x), bound);
    MulKeepsOrder(s, bound, Abs(x));
    MulKeepsOrder(s, x, 0.0);
    MulKeepsOrder(s, 0.0, x);
  }

  lemma {:induction false} EliminatedScales(m: Rows, n: nat, s: real, col: nat)
    requires Shape(m, n) && col < n && s > 0.0 && m[col][col] != 0.0
    requires ScaledRows(s, m)[col][col] != 0.0
    ensures Eliminated(ScaledRows(s, m), n, col) == ScaledRows(s, Eliminated(m, n, col))
  {
    hide SubScaled, ScaledVec;
    var sm := ScaledRows(s, m);
    forall i | 0 <= i < n
      ensures Eliminated(sm, n, col)[i] == ScaledVec(s, Eliminated(m, n, col)[i])
    {
      if i != col {
        EliminatedRowScales(m[i], m[col], s, col);
      }
    }
  }

  lemma {:induction false} EliminatedRowScales(a: Vec, b: Vec, s: real, col: nat)
    requires col < |a| == |b| && s > 0.0 && b[col] != 0.0 && ScaledVec(s, b)[col] != 0.0
    ensures SubScaled(ScaledVec(s, a), ScaledVec(s, a)[col] / ScaledVec(s, b)[col], ScaledVec(s, b)) ==
      ScaledVec(s, SubScaled(a, a[col] / b[col], b))
  {
    hide SubScaled;
    RatioScales(s, a[col], ScaledVec(s, a)[col], b[col], ScaledVec(s, b)[col]);
    SubScaledScales(a, a[col] / b[col], b, s);
  }

  lemma {:induction false} SubScaledScales(a: Vec, f: real, b: Vec, s: real)
    requires |a| == |b|
    ensures SubScaled(ScaledVec(s, a), f, ScaledVec(s, b)) == ScaledVec(s, SubScaled(a, f, b))
  {
    var left, right := SubScaled(ScaledVec(s, a), f, ScaledVec(s, b)), ScaledVec(s, SubScaled(a, f, b));
    forall j | 0 <= j < |a| ensures left[j] == right[j] {
      SpreadScale(s, a[j], f, b[j]);
      assert left[j] == s * a[j] - f * (s * b[j]);
    }
  }

  lemma {:induction false} SpreadScale(s: real, a: real, f: real, b: real)
    ensures s * a - f * (s * b) == s * (a - f * b)
  {
    assert f * (s * b) == s * (f * b);
  }

  lemma {:induction false} RatioScales(s: real, x: real, sx: real, d: real, sd: real)
    requires s > 0.0 && d != 0.0 && sd != 0.0 && sx == s * x && sd == s * d
    ensures sx / sd == x / d
  {
    var q := x / d;
    assert x == q * d;
    assert sx == q * sd;
  }

  lemma {:induction false} SwappedScales(m: Rows, s: real, i: nat, j: nat)
    requires i < |m| && j < |m|
    ensures Swapped(ScaledRows(s, m), i, j) == ScaledRows(s, Swapped(m, i, j))
  {
    var left, right := Swapped(ScaledRows(s, m), i, j), ScaledRows(s, Swapped(m, i, j));
    assert forall k :: 0 <= k < |m| ==> left[k] == right[k];
  }

  lemma {:induction false} EntryTestScales(row: Vec, s: real, col: nat, eps: real, seps: real)
    requires col < |row| && s > 0.0 && seps == s * eps
    ensures Abs(ScaledVec(s, row)[col]) < seps <==> Abs(row[col]) < eps
    ensures ScaledVec(s, row)[col] == 0.0 <==> row[col] == 0.0
  {
    MagnitudeScales(s, row[col], ScaledVec(s, row)[col], eps, seps);
  }

  lemma {:induction false} ReducedScales(m: Rows, n: nat, s: real, col: nat, eps: real, seps: real)
    requires Shape(m, n) && col <= n && s > 0.0 && eps > 0.0 && seps > 0.0 && seps == s * eps
    ensures Reduced(ScaledRows(s, m), n, col, seps).Some? <==> Reduced(m, n, col, eps).Some?
    decreases n - col
  {
    if col < n {
      var p := PivotRow(m, n, col);
      PivotScales(m, n, s, col, col, col + 1);
      EntryTestScales(m[p], s, col, eps, seps);
      if Abs(m[p][col]) >= eps {
        SwappedScales(m, s, col, p);
        EliminatedScales(Swapped(m, col, p), n, s, col);
        ReducedScales(Eliminated(Swapped(m, col, p), n, col), n, s, col + 1, eps, seps);
      }
    }
  }

  ghost predicate TrivialKernel(m: Rows, n: nat)
    requires Shape(m, n)
  {
    forall y: Vec :: |y| == n + 1 && y[n] == 0.0 && Annihilates(m, n, y) ==>
      forall k :: 0 <= k < n ==> y[k] == 0.0
  }

  /** With nothing left in column `col` from the diagonal down, this vector lies in the kernel. */
  lemma {:induction false} EmptyColumnHasKernel(m: Rows, n: nat, col: nat)
    requires Shape(m, n) && col < n && DiagonalTo(m, n, col)
    requires forall i :: col <= i < n ==> m[i][col] == 0.0
    ensures !TrivialKernel(m, n)
  {
    var y := seq(n + 1, j requires 0 <= j < n + 1 =>
      if j < col then -m[j][col] / m[j][j] else if j == col then 1.0 else 0.0);
    forall i | 0 <= i < n ensures Dot(m[i], y) == 0.0 {
      if i < col {
        DotTwoTerms(m[i], y, i, col);
        var d, q := m[i][i], m[i][col];
        assert d * (-q / d) == -q;
      } else {
        DotZero(m[i], y);
      }
    }
    assert Annihilates(m, n, y) && y[col] != 0.0;
  }

  /** Without a kernel, elimination succeeds under every sufficiently small threshold. */
  lemma {:induction false} RegularIsReduced(m: Rows, n: nat, col: nat) returns (bound: real)
    requires Shape(m, n) && col <= n && DiagonalTo(m, n, col) && TrivialKernel(m, n)
    ensures bound > 0.0 && forall eps :: 0.0 < eps <= bound ==> Reduced(m, n, col, eps).Some?
    decreases n - col
  {
    bound := 1.0;
    if col < n {
      var p := PivotRow(m, n, col);
      if m[p][col] == 0.0 {
        EmptyColumnHasKernel(m, n, col);
      }
      var s := Swapped(m, col, p);
      var e := Eliminated(s, n, col);
      EliminateExtendsDiagonal(m, n, col, p);
      forall y: Vec | |y| == n + 1 && y[n] == 0.0 && Annihilates(e, n, y)
        ensures Annihilates(m, n, y)
      {
        SwapKeepsSolutions(m, n, col, p, y);
        EliminateKeepsSolutions(s, n, col, y);
      }
      bound := RegularIsReduced(e, n, col + 1);
      if Abs(m[p][col]) < bound {
        bound := Abs(m[p][col]);
      }
    }
  }

  lemma {:induction false} AugmentedKernel(matrix: Rows, rhs: Vec)
    requires Square(matrix, |rhs|) && !Singular(matrix, |rhs|)
    ensures TrivialKernel(Augmented(matrix, rhs), |rhs|)
  {
    var n, m := |rhs|, Augmented(matrix, rhs);
    forall y: Vec | |y| == n + 1 && y[n] == 0.0 && Annihilates(m, n, y)
      ensures forall k :: 0 <= k < n ==> y[k] == 0.0
    {
      assert y == y[..n] + [0.0];
      AnnihilatingIsSolving(matrix, rhs, y[..n]);
      assert InKernel(matrix, n, y[..n]);
    }
  }

  lemma {:induction false} SolvedAtScale(matrix: Rows, rhs: Vec, s: real, eps: real)
    requires Square(matrix, |rhs|) && s > 0.0 && eps > 0.0 && SINGULAR_PIVOT_EPS == s * eps
    requires Reduced(Augmented(matrix, rhs), |rhs|, 0, eps).Some?
    ensures Solution(ScaledRows(s, matrix), ScaledVec(s, rhs)).Some?
  {
    ReducedScales(Augmented(matrix, rhs), |rhs|, s, 0, eps, SINGULAR_PIVOT_EPS);
    ScaledAugmented(matrix, rhs, s);
  }

  /** A non-singular system is solved once its equations are multiplied by a large enough factor. */
  lemma {:induction false} RegularIsSolvedWhenScaled(matrix: Rows, rhs: Vec) returns (scale: real)
    requires Square(matrix, |rhs|) && !Singular(matrix, |rhs|)
    ensures scale > 0.0
    ensures forall s :: s >= scale ==> Solution(ScaledRows(s, matrix), ScaledVec(s, rhs)).Some?
  {
    AugmentedKernel(matrix, rhs);
    var bound := RegularIsReduced(Augmented(matrix, rhs), |rhs|, 0);
    scale := SINGULAR_PIVOT_EPS / bound;
    assert scale > 0.0 && scale * bound == SINGULAR_PIVOT_EPS;
    forall s | s >= scale
      ensures Solution(ScaledRows(s, matrix), ScaledVec(s, rhs)).Some?
    {
      ThresholdFits(s, scale, bound, SINGULAR_PIVOT_EPS);
      SolvedAtScale(matrix, rhs, s, SINGULAR_PIVOT_EPS / s);
    }
  }

  lemma {:induction false} ThresholdFits(s: real, scale: real, bound: real, c: real)
    requires s >= scale > 0.0 && bound > 0.0 && c > 0.0 && scale * bound == c
    ensures 0.0 < c / s <= bound && s * (c / s) == c
  {
    var q := c / s;
    assert s * q == c;
    MulKeepsOrder(s, bound, q);
    MulKeepsOrder(s, 0.0, q);
    MulKeepsOrder(bound, s, scale);
  }

  lemma {:induction false} ScaledAugmented(matrix: Rows, rhs: Vec, s: real)
    requires Square(matrix, |rhs|)
    ensures Augmented(ScaledRows(s, matrix), ScaledVec(s, rhs)) == ScaledRows(s, Augmented(matrix, rhs))
  {
    var n := |rhs|;
    var left, right := Augmented(ScaledRows(s, matrix), ScaledVec(s, rhs)), ScaledRows(s, Augmented(matrix, rhs));
    forall i | 0 <= i < n ensures left[i] == right[i] {
      assert forall j :: 0 <= j < n + 1 ==> left[i][j] == right[i][j];
    }
  }

  /** The absolute pivot threshold is the only reason a non-singular system is refused: a matrix
      is singular exactly when its system is refused at every positive scale. */
  lemma {:induction false} SingularIffRefusedAtEveryScale(matrix: Rows, rhs: Vec)
    requires Square(matrix, |rhs|)
    ensures Singular(matrix, |rhs|) <==>
      forall s :: s > 0.0 ==> Solution(ScaledRows(s, matrix), ScaledVec(s, rhs)).None?
  {
    var n := |rhs|;
    if Singular(matrix, n) {
      var v: Vec :| InKernel(matrix, n, v) && exists k :: 0 <= k < n && v[k] != 0.0;
      forall s | s > 0.0 ensures Solution(ScaledRows(s, matrix), ScaledVec(s, rhs)).None? {
        forall i | 0 <= i < n ensures Dot(ScaledRows(s, matrix)[i], v) == 0.0 {
          DotScaled(s, matrix[i], v);
        }
        assert InKernel(ScaledRows(s, matrix), n, v);
        SingularIsRefused(ScaledRows(s, matrix), ScaledVec(s, rhs));
      }
    } else {
      var scale := RegularIsSolvedWhenScaled(matrix, rhs);
      assert Solution(ScaledRows(scale, matrix), ScaledVec(scale, rhs)).Some?;
    }
  }

  // ------------------------------------------------------------ exactly which system is refused

  /** The pivot magnitudes of the elimination run with no threshold, up to the first zero. */
  function Pivots(m: Rows, n: nat, col: nat): (ps: seq<real>)
    requires Shape(m, n) && col <= n
    ensures forall k :: 0 <= k < |ps| ==> ps[k] >= 0.0
    decreases n - col
  {
    if col == n then []
    else
      var p := PivotRow(m, n, col);
      if m[p][col] == 0.0 then [0.0]
      else [Abs(m[p][col])] + Pivots(Eliminated(Swapped(m, col, p), n, col), n, col + 1)
  }

  ghost predicate AllAtLeast(ps: seq<real>, eps: real) {
    forall k :: 0 <= k < |ps| ==> ps[k] >= eps
  }

  lemma {:induction false} AllAtLeastCons(p: real, ps: seq<real>, eps: real)
    ensures AllAtLeast([p] + ps, eps) <==> p >= eps && AllAtLeast(ps, eps)
  {
    var all := [p] + ps;
    assert all[0] == p;
    assert forall k :: 0 <= k < |ps| ==> all[k + 1] == ps[k];
  }

  /** One column without the threshold: the pivot's magnitude and what is left to eliminate. */
  lemma {:induction false} PivotsStep(m: Rows, n: nat, col: nat, eps: real) returns (size: real, next: Rows)
    requires Shape(m, n) && col < n && eps > 0.0 && m[PivotRow(m, n, col)][col] != 0.0
    ensures Shape(next, n)
    ensures AllAtLeast(Pivots(m, n, col), eps) <==> size >= eps && AllAtLeast(Pivots(next, n, col + 1), eps)
    ensures Reduced(m, n, col, eps).Some? <==> size >= eps && Reduced(next, n, col + 1, eps).Some?
  {
    hide PivotRow, Abs;
    var p := PivotRow(m, n, col);
    var swapped := Swapped(m, col, p);
    assert swapped[col] == m[p];
    hide Swapped;
    next := Eliminated(swapped, n, col);
    hide Eliminated;
    size := Abs(m[p][col]);
    AllAtLeastCons(size, Pivots(next, n, col + 1), eps);
  }

  lemma {:induction false} ZeroPivotStops(m: Rows, n: nat, col: nat, eps: real)
    requires Shape(m, n) && col < n && eps > 0.0 && m[PivotRow(m, n, col)][col] == 0.0
    ensures !AllAtLeast(Pivots(m, n, col), eps) && Reduced(m, n, col, eps).None?
  {
    hide PivotRow, Eliminated, Swapped, AllAtLeast;
    ZeroIsBelow([0.0], eps);
  }

  lemma {:induction false} NothingToReduce(m: Rows, n: nat, eps: real)
    requires Shape(m, n) && eps > 0.0
    ensures Reduced(m, n, n, eps).Some? && AllAtLeast(Pivots(m, n, n), eps)
  {
    hide PivotRow, Eliminated, Swapped;
    assert Pivots(m, n, n) == [];
  }

  /** The threshold test never changes the elimination, it only cuts it short. */
  lemma {:induction false} ReducedIffPivots(m: Rows, n: nat, col: nat, eps: real)
    requires Shape(m, n) && col <= n && eps > 0.0
    ensures Reduced(m, n, col, eps).Some? <==> AllAtLeast(Pivots(m, n, col), eps)
    decreases n - col
  {
    hide Reduced, Pivots, AllAtLeast, PivotRow, PivotFrom;
    if col == n {
      NothingToReduce(m, n, eps);
    } else if m[PivotRow(m, n, col)][col] == 0.0 {
      ZeroPivotStops(m, n, col, eps);
    } else {
      var size, next := PivotsStep(m, n, col, eps);
      ReducedIffPivots(next, n, col + 1, eps);
    }
  }

  lemma {:induction false} PositiveBound(ps: seq<real>) returns (eps: real)
    requires (forall k :: 0 <= k < |ps| ==> ps[k] >= 0.0) && 0.0 !in ps
    ensures eps > 0.0 && AllAtLeast(ps, eps)
  {
    eps := 1.0;
    for i := 0 to |ps|
      invariant eps > 0.0 && forall k :: 0 <= k < i ==> ps[k] >= eps
    {
      assert ps[i] in ps;
      if ps[i] < eps {
        eps := ps[i];
      }
    }
  }

  lemma {:induction false} ZeroIsBelow(ps: seq<real>, eps: real)
    requires 0.0 in ps && eps > 0.0
    ensures !AllAtLeast(ps, eps)
  {
    var k :| 0 <= k < |ps| && ps[k] == 0.0;
    assert ps[k] < eps;
  }

  /** A matrix is singular exactly when its elimination meets a zero pivot. */
  lemma {:induction false} SingularIffZeroPivot(matrix: Rows, rhs: Vec)
    requires Square(matrix, |rhs|)
    ensures Singular(matrix, |rhs|) <==> 0.0 in Pivots(Augmented(matrix, rhs), |rhs|, 0)
  {
    hide Pivots, Reduced;
    var n, m := |rhs|, Augmented(matrix, rhs);
    var ps := Pivots(m, n, 0);
    if 0.0 in ps {
      if !Singular(matrix, n) {
        AugmentedKernel(matrix, rhs);
        var bound := RegularIsReduced(m, n, 0);
        ReducedIffPivots(m, n, 0, bound);
        ZeroIsBelow(ps, bound);
      }
    } else {
      var eps := PositiveBound(ps);
      ReducedIffPivots(m, n, 0, eps);
      if Singular(matrix, n) {
        var v: Vec :| InKernel(matrix, n, v) && exists k :: 0 <= k < n && v[k] != 0.0;
        ReadOffMeaning(matrix, rhs, eps, v);
      }
    }
  }

  /** A system is refused exactly when some pivot of its elimination is below the threshold. */
  lemma {:induction false} RefusedIffSmallPivot(matrix: Rows, rhs: Vec)
    requires Square(matrix, |rhs|)
    ensures Solution(matrix, rhs).None? <==>
      exists k :: 0 <= k < |Pivots(Augmented(matrix, rhs), |rhs|, 0)|
        && Pivots(Augmented(matrix, rhs), |rhs|, 0)[k] < 1.0 / 1_000_000_000.0
  {
    ReducedIffPivots(Augmented(matrix, rhs), |rhs|, 0, SINGULAR_PIVOT_EPS);
    hide Pivots, Reduced;
  }

  /** Exactly when None means singular: the elimination meets a zero pivot, or no pivot below the
      threshold.  The wrongly refused systems are those with a small pivot and no zero one. */
  lemma {:induction false} NoneMeansSingularIff(matrix: Rows, rhs: Vec)
    requires Square(matrix, |rhs|)
    ensures
      var pivots := Pivots(Augmented(matrix, rhs), |rhs|, 0);
      (Solution(matrix, rhs).None? <==> Singular(matrix, |rhs|)) <==>
      0.0 in pivots || AllAtLeast(pivots, SINGULAR_PIVOT_EPS)
  {
    hide Pivots, Reduced, Solution, Singular;
    RefusedIffSmallPivot(matrix, rhs);
    SingularIffZeroPivot(matrix, rhs);
    var pivots := Pivots(Augmented(matrix, rhs), |rhs|, 0);
    if 0.0 in pivots {
      ZeroIsBelow(pivots, SINGULAR_PIVOT_EPS);
    }
  }

  /** A refusal does not mean singular: this one-by-one system has a solution and is refused. */
  lemma {:induction false} RefusedThoughSolvable()
    ensures Solves([[SINGULAR_PIVOT_EPS / 2.0]], [1.0], [2.0 / SINGULAR_PIVOT_EPS])
    ensures Solution([[SINGULAR_PIVOT_EPS / 2.0]], [1.0]).None?
  {
    var row, x := [SINGULAR_PIVOT_EPS / 2.0], [2.0 / SINGULAR_PIVOT_EPS];
    DotOneTerm(row, x, 0);
    assert Augmented([row], [1.0])[0] == row + [1.0];
  }

  // ------------------------------------------------------------ the solver, in place

  /** The inner loop of one elimination step: row `r` loses `factor` times the pivot row. */
  method SubtractPivotRow(aug: array<Vec>, n: nat, r: nat, col: nat, factor: real)
    requires Shape(aug[..], n) && r < n && col < n && r != col
    requires forall j :: 0 <= j < col ==> aug[col][j] == 0.0
    modifies aug
    ensures aug[..] == old(aug[..])[r := SubScaled(old(aug[r]), factor, old(aug[col]))]
  {
    ghost var row, pivotRow := aug[r], aug[col];
    ghost var target := SubScaled(row, factor, pivotRow);
    for c := col to n + 1
      invariant aug[..] == old(aug[..])[r := aug[r]]
      invariant |aug[r]| == n + 1
      invariant forall j :: 0 <= j < c ==> aug[r][j] == target[j]
      invariant forall j :: c <= j < n + 1 ==> aug[r][j] == row[j]
    {
      aug[r] := aug[r][c := aug[r][c] - factor * aug[col][c]];
    }
    assert aug[r] == target;
  }

  /** One pass of the row loop: column `col` is cleared from every row but the pivot's. */
  method EliminateColumn(aug: array<Vec>, n: nat, col: nat)
    requires Shape(aug[..], n) && col < n && aug[col][col] != 0.0
    requires forall j :: 0 <= j < col ==> aug[col][j] == 0.0
    modifies aug
    ensures aug[..] == Eliminated(old(aug[..]), n, col)
  {
    ghost var before := aug[..];
    var pivot := aug[col][col];
    ghost var target := Eliminated(before, n, col);
    for r := 0 to n
      invariant forall i :: 0 <= i < r ==> aug[i] == target[i]
      invariant forall i :: r <= i < n ==> aug[i] == before[i]
    {
      if r != col {
        assert target[col] == before[col] == aug[col];
        ghost var previous := aug[..];
        assert Shape(previous, n);
        SubtractPivotRow(aug, n, r, col, aug[r][col] / pivot);
        assert forall i :: 0 <= i < n && i != r ==> aug[i] == previous[i];
      }
    }
  }

  method SolveLinearSystem(matrix: Rows, rhs: Vec) returns (x: Option<Vec>)
    requires Square(matrix, |rhs|)
    ensures x == Solution(matrix, rhs)
    ensures x.Some? ==> Solves(matrix, rhs, x.value)
    ensures x.Some? ==> forall y: Vec :: Solves(matrix, rhs, y) ==> y == x.value
  {
    var n := |rhs|;
    var aug := new Vec[n](i requires 0 <= i < n => matrix[i] + [rhs[i]]);
    ghost var result := Reduced(Augmented(matrix, rhs), n, 0, SINGULAR_PIVOT_EPS);
    assert aug[..] == Augmented(matrix, rhs);
    for col := 0 to n
      invariant Shape(aug[..], n) && DiagonalTo(aug[..], n, col)
      invariant Reduced(aug[..], n, col, SINGULAR_PIVOT_EPS) == result
    {
      ghost var before := aug[..];
      var pivotRow := PivotRow(aug[..], n, col);
      if Abs(aug[pivotRow][col]) < SINGULAR_PIVOT_EPS {
        return None;
      }
      aug[col], aug[pivotRow] := aug[pivotRow], aug[col];
      assert aug[..] == Swapped(before, col, pivotRow);
      EliminateExtendsDiagonal(before, n, col, pivotRow);
      EliminateColumn(aug, n, col);
    }
    x := Some(ReadOff(aug[..], n));
    SolutionIsExactAndUnique(matrix, rhs);
  }
}
