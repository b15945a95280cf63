/** 2025 day 10, part 2: each button raises by one the joltage counters it
    lists, and the answer is the fewest presses that bring every counter
    exactly to its target. The press counts solve a system of linear
    equations: one row per counter, one column per button, and the targets
    in a last column. The system is brought to upper triangular form by
    integer row and column operations; the variables left without a
    diagonal entry are then raised one at a time, breadth first, and every
    assignment that back-substitutes cleanly is a candidate answer. */
module Y2025Day10Part2 {
  import opened Common
  import Modular
  import Y2025Day10

  // ---------------------------------------------------------------- matrices

  /** `matrix`: rows of integers, the last column holding the right-hand
      sides. */
  type Matrix = seq<seq<int>>

  type Bits = Y2025Day10.Bits

  /** At least one row and one column, every row as long as the first. */
  predicate Rect(m: Matrix)
  {
    |m| >= 1 && |m[0]| >= 1 && forall i :: 0 <= i < |m| ==> |m[i]| == |m[0]|
  }

  /** `cols`: the length of the first row. */
  function Cols(m: Matrix): nat
    requires |m| >= 1
  {
    |m[0]|
  }

  /** The number of variables: every column but the last. */
  function Vars(m: Matrix): nat
    requires Rect(m)
  {
    Cols(m) - 1
  }

  /** Sum of row[c] * x[c] over lo <= c < hi. */
  function Dot(row: seq<int>, x: seq<int>, lo: nat, hi: nat): int
    requires hi <= |row| && hi <= |x|
    decreases hi - lo
  {
    if lo >= hi then 0 else row[lo] * x[lo] + Dot(row, x, lo + 1, hi)
  }

  /** One equation holds for the values x of the variables. */
  predicate Holds(row: seq<int>, x: seq<int>)
    requires |row| == |x| + 1
  {
    Dot(row, x, 0, |x|) == row[|x|]
  }

  /** x solves every equation of m. */
  predicate Solves(m: Matrix, x: seq<int>)
    requires Rect(m) && |x| == Vars(m)
  {
    forall r :: 0 <= r < |m| ==> Holds(m[r], x)
  }

  // ---------------------------------------------------------------- row and column operations

  /** `swap`: rows i and j exchanged. */
  function Swap(m: Matrix, i: nat, j: nat): Matrix
    requires i < |m| && j < |m|
  {
    m[i := m[j]][j := m[i]]
  }

  /** A sequence with the entries at a and b exchanged. */
  function SwapAt<T>(s: seq<T>, a: nat, b: nat): seq<T>
    requires a < |s| && b < |s|
  {
    s[a := s[b]][b := s[a]]
  }

  /** Columns a and b exchanged in every row. */
  function ColSwapped(m: Matrix, a: nat, b: nat): Matrix
    requires Rect(m) && a < Cols(m) && b < Cols(m)
  {
    seq(|m|, i requires 0 <= i < |m| => SwapAt(m[i], a, b))
  }

  /** A row times -1. */
  function Negated(u: seq<int>): seq<int>
  {
    seq(|u|, c requires 0 <= c < |u| => u[c] * -1)
  }

  /** u plus f times v. */
  function AddRow(u: seq<int>, v: seq<int>, f: int): seq<int>
    requires |u| == |v|
  {
    seq(|u|, c requires 0 <= c < |u| => u[c] + v[c] * f)
  }

  /** `colswap`: a fresh matrix whose rows are copies with columns a and b
      exchanged. */
  method ColSwap(m: Matrix, a: nat, b: nat) returns (n: Matrix)
    requires Rect(m) && a < Cols(m) && b < Cols(m)
    ensures n == ColSwapped(m, a, b)
  {
    n := [];
    for i := 0 to |m|
      invariant n == ColSwapped(m, a, b)[..i]
    {
      n := n + [SwapAt(m[i], a, b)];
    }
  }

  /** `negate`: row i replaced by a fresh row with every entry negated. */
  method Negate(m: Matrix, i: nat) returns (n: Matrix)
    requires Rect(m) && i < |m|
    ensures n == m[i := Negated(m[i])]
  {
    var row := [];
    assert |m[i]| == Cols(m);
    for c := 0 to Cols(m)
      invariant row == Negated(m[i])[..c]
    {
      row := row + [m[i][c] * -1];
    }
    assert row == Negated(m[i]);
    n := m[i := row];
  }

  /** `add`: row dest replaced by a fresh row, dest plus factor times src. */
  method Add(m: Matrix, dest: nat, src: nat, factor: int) returns (n: Matrix)
    requires Rect(m) && dest < |m| && src < |m|
    ensures n == m[dest := AddRow(m[dest], m[src], factor)]
  {
    var row := [];
    assert |m[dest]| == |m[src]| == Cols(m);
    for c := 0 to Cols(m)
      invariant row == AddRow(m[dest], m[src], factor)[..c]
    {
      row := row + [m[dest][c] + m[src][c] * factor];
    }
    assert row == AddRow(m[dest], m[src], factor);
    n := m[dest := row];
  }

  /** `rightmost`: the last column of the row with a nonzero entry, or -1
      when the whole row is zero. */
  method Rightmost(m: Matrix, row: nat) returns (r: int)
    requires Rect(m) && row < |m|
    ensures -1 <= r < Cols(m)
    ensures r == -1 <==> forall c :: 0 <= c < Cols(m) ==> m[row][c] == 0
    ensures r >= 0 ==> m[row][r] != 0 && forall c :: r < c < Cols(m) ==> m[row][c] == 0
  {
    var i := Cols(m) - 1;
    while i >= 0
      invariant -1 <= i < Cols(m)
      invariant forall c :: i < c < Cols(m) ==> m[row][c] == 0
    {
      if m[row][i] != 0 {
        return i;
      }
      i := i - 1;
    }
    return -1;
  }

  // ---------------------------------------------------------------- the operations keep the solutions

  lemma {:induction false} DotAdd(u: seq<int>, v: seq<int>, f: int, x: seq<int>, lo: nat, hi: nat)
    requires |u| == |v| && hi <= |u| && hi <= |x|
    ensures Dot(AddRow(u, v, f), x, lo, hi) == Dot(u, x, lo, hi) + f * Dot(v, x, lo, hi)
    decreases hi - lo
  {
    if lo < hi {
      DotAdd(u, v, f, x, lo + 1, hi);
      var w := AddRow(u, v, f);
      assert w[lo] * x[lo] == u[lo] * x[lo] + f * (v[lo] * x[lo]) by {
        assert w[lo] == u[lo] + v[lo] * f;
      }
    }
  }

  lemma {:induction false} DotNegated(u: seq<int>, x: seq<int>, lo: nat, hi: nat)
    requires hi <= |u| && hi <= |x|
    ensures Dot(Negated(u), x, lo, hi) == -Dot(u, x, lo, hi)
    decreases hi - lo
  {
    if lo < hi {
      DotNegated(u, x, lo + 1, hi);
    }
  }

  /** Changing one term of a dot product changes it by the difference. */
  lemma {:induction false} DotPoint(row: seq<int>, x: seq<int>, a: nat, p: int, q: int, lo: nat, hi: nat)
    requires hi <= |row| && hi <= |x| && lo <= a < hi
    ensures Dot(row[a := p], x[a := q], lo, hi) == Dot(row, x, lo, hi) - row[a] * x[a] + p * q
    decreases hi - lo
  {
    if lo < a {
      DotPoint(row, x, a, p, q, lo + 1, hi);
    } else {
      DotFrame(row[a := p], x[a := q], row, x, lo + 1, hi);
    }
  }

  /** A dot product reads only its own range of both sequences. */
  lemma {:induction false} DotFrame(u: seq<int>, x: seq<int>, v: seq<int>, y: seq<int>, lo: nat, hi: nat)
    requires hi <= |u| && hi <= |x| && hi <= |v| && hi <= |y|
    requires forall c :: lo <= c < hi ==> u[c] == v[c] && x[c] == y[c]
    ensures Dot(u, x, lo, hi) == Dot(v, y, lo, hi)
    decreases hi - lo
  {
    if lo < hi {
      DotFrame(u, x, v, y, lo + 1, hi);
    }
  }

  /** Exchanging two entries of both the row and the values keeps the dot
      product. */
  lemma DotSwap(row: seq<int>, x: seq<int>, a: nat, b: nat, hi: nat)
    requires hi <= |row| && hi <= |x| && a < hi && b < hi
    ensures Dot(SwapAt(row, a, b), SwapAt(x, a, b), 0, hi) == Dot(row, x, 0, hi)
  {
    if a != b {
      DotPoint(row, x, a, row[b], x[b], 0, hi);
      DotPoint(row[a := row[b]], x[a := x[b]], b, row[a], x[a], 0, hi);
      assert row[a := row[b]][b] == row[b] && x[a := x[b]][b] == x[b];
    } else {
      assert SwapAt(row, a, b) == row && SwapAt(x, a, b) == x;
    }
  }

  /** Exchanging two rows keeps the solutions. */
  lemma SwapSolves(m: Matrix, i: nat, j: nat, x: seq<int>)
    requires Rect(m) && i < |m| && j < |m| && |x| == Vars(m)
    ensures Rect(Swap(m, i, j)) && Cols(Swap(m, i, j)) == Cols(m)
    ensures Solves(Swap(m, i, j), x) <==> Solves(m, x)
  {
    var n := Swap(m, i, j);
    assert |n[0]| == Cols(m);
    if Solves(m, x) {
      forall r | 0 <= r < |n| ensures Holds(n[r], x) {
        assert n[r] == m[if r == i then j else if r == j then i else r];
      }
    }
    if Solves(n, x) {
      forall r | 0 <= r < |m| ensures Holds(m[r], x) {
        assert m[r] == n[if r == i then j else if r == j then i else r];
      }
    }
  }

  /** Negating a row keeps the solutions. */
  lemma NegateSolves(m: Matrix, i: nat, x: seq<int>)
    requires Rect(m) && i < |m| && |x| == Vars(m)
    ensures Rect(m[i := Negated(m[i])]) && Cols(m[i := Negated(m[i])]) == Cols(m)
    ensures Solves(m[i := Negated(m[i])], x) <==> Solves(m, x)
  {
    var n := m[i := Negated(m[i])];
    assert |n[0]| == Cols(m);
    DotNegated(m[i], x, 0, |x|);
    assert Holds(n[i], x) <==> Holds(m[i], x);
    assert forall r :: 0 <= r < |m| && r != i ==> n[r] == m[r];
  }

  /** Adding a multiple of another row keeps the solutions. */
  lemma AddSolves(m: Matrix, dest: nat, src: nat, f: int, x: seq<int>)
    requires Rect(m) && dest < |m| && src < |m| && dest != src && |x| == Vars(m)
    ensures Rect(m[dest := AddRow(m[dest], m[src], f)])
    ensures Cols(m[dest := AddRow(m[dest], m[src], f)]) == Cols(m)
    ensures Solves(m[dest := AddRow(m[dest], m[src], f)], x) <==> Solves(m, x)
  {
    var n := m[dest := AddRow(m[dest], m[src], f)];
    assert |n[0]| == Cols(m);
    DotAdd(m[dest], m[src], f, x, 0, |x|);
    assert n[dest][|x|] == m[dest][|x|] + f * m[src][|x|];
    assert n[src] == m[src];
    assert forall r :: 0 <= r < |m| && r != dest ==> n[r] == m[r];
    if Solves(n, x) {
      assert Holds(n[src], x) && Holds(n[dest], x);
      assert Holds(m[dest], x);
    }
  }

  /** Exchanging two variable columns exchanges the two variables. */
  lemma ColSwapSolves(m: Matrix, a: nat, b: nat, x: seq<int>)
    requires Rect(m) && a < Vars(m) && b < Vars(m) && |x| == Vars(m)
    ensures Rect(ColSwapped(m, a, b)) && Cols(ColSwapped(m, a, b)) == Cols(m)
    ensures Solves(ColSwapped(m, a, b), SwapAt(x, a, b)) <==> Solves(m, x)
  {
    var n := ColSwapped(m, a, b);
    var y := SwapAt(x, a, b);
    assert |n[0]| == Cols(m);
    forall r | 0 <= r < |m| ensures Holds(n[r], y) <==> Holds(m[r], x) {
      DotSwap(m[r], x, a, b, |x|);
      assert n[r][|x|] == m[r][|x|];
    }
  }

  // ---------------------------------------------------------------- what reduction keeps

  /** Every entry is at least zero, as press counts are. */
  predicate Nonneg(x: seq<int>)
  {
    forall k :: 0 <= k < |x| ==> x[k] >= 0
  }

  /** Some row has a nonzero entry in column k. */
  predicate Used(m: Matrix, k: nat)
    requires Rect(m) && k < Cols(m)
  {
    exists r :: 0 <= r < |m| && m[r][k] != 0
  }

  /** x is positive only at variables whose column is used. */
  predicate Supported(m: Matrix, x: seq<int>)
    requires Rect(m) && |x| == Vars(m)
  {
    forall k :: 0 <= k < |x| && x[k] > 0 ==> Used(m, k)
  }

  /** x is a solution in press counts. */
  predicate Valid(m: Matrix, x: seq<int>)
    requires Rect(m)
  {
    |x| == Vars(m) && Solves(m, x) && Nonneg(x)
  }

  /** m0 has a solution in press counts totalling t; with `sup`, one that
      is positive only at used columns. */
  ghost predicate Covered(m0: Matrix, t: int, sup: bool)
    requires Rect(m0)
  {
    exists x :: Valid(m0, x) && (sup ==> Supported(m0, x)) && Sum(x) == t
  }

  /** Every solution of m in press counts gives one of m0 with the same
      total, keeping support. */
  ghost predicate Back(m0: Matrix, m: Matrix)
  {
    Rect(m0) && Rect(m) && Cols(m0) == Cols(m)
    && forall x :: Valid(m, x) ==> Covered(m0, Sum(x), false) && (Supported(m, x) ==> Covered(m0, Sum(x), true))
  }

  lemma BackRefl(m: Matrix)
    requires Rect(m)
    ensures Back(m, m)
  {
    forall x | Valid(m, x) ensures Covered(m, Sum(x), false) && (Supported(m, x) ==> Covered(m, Sum(x), true)) {
      assert Valid(m, x);
    }
  }

  lemma BackSwap(m0: Matrix, m: Matrix, i: nat, j: nat)
    requires Back(m0, m) && i < |m| && j < |m|
    ensures Back(m0, Swap(m, i, j))
  {
    var n := Swap(m, i, j);
    forall x | Valid(n, x) ensures Covered(m0, Sum(x), false) && (Supported(n, x) ==> Covered(m0, Sum(x), true)) {
      SwapSolves(m, i, j, x);
      assert Valid(m, x);
      if Supported(n, x) {
        forall k | 0 <= k < |x| && x[k] > 0 ensures Used(m, k) {
          var r :| 0 <= r < |n| && n[r][k] != 0;
          assert m[if r == i then j else if r == j then i else r][k] != 0;
        }
      }
    }
    SwapSolves(m, i, j, seq(Vars(m), _ => 0));
  }

  lemma BackNegate(m0: Matrix, m: Matrix, i: nat)
    requires Back(m0, m) && i < |m|
    ensures Back(m0, m[i := Negated(m[i])])
  {
    var n := m[i := Negated(m[i])];
    forall x | Valid(n, x) ensures Covered(m0, Sum(x), false) && (Supported(n, x) ==> Covered(m0, Sum(x), true)) {
      NegateSolves(m, i, x);
      assert Valid(m, x);
      if Supported(n, x) {
        forall k | 0 <= k < |x| && x[k] > 0 ensures Used(m, k) {
          var r :| 0 <= r < |n| && n[r][k] != 0;
          assert m[r][k] != 0;
        }
      }
    }
    NegateSolves(m, i, seq(Vars(m), _ => 0));
  }

  lemma BackAdd(m0: Matrix, m: Matrix, dest: nat, src: nat, f: int)
    requires Back(m0, m) && dest < |m| && src < |m| && dest != src
    ensures Back(m0, m[dest := AddRow(m[dest], m[src], f)])
  {
    var n := m[dest := AddRow(m[dest], m[src], f)];
    forall x | Valid(n, x) ensures Covered(m0, Sum(x), false) && (Supported(n, x) ==> Covered(m0, Sum(x), true)) {
      AddSolves(m, dest, src, f, x);
      assert Valid(m, x);
      if Supported(n, x) {
        forall k | 0 <= k < |x| && x[k] > 0 ensures Used(m, k) {
          var r :| 0 <= r < |n| && n[r][k] != 0;
          assert m[r][k] != 0 || m[src][k] != 0;
        }
      }
    }
    AddSolves(m, dest, src, f, seq(Vars(m), _ => 0));
  }

  /** Two entries exchanged, the total is the same. */
  lemma SumSwap(x: seq<int>, a: nat, b: nat)
    requires a < |x| && b < |x|
    ensures Sum(SwapAt(x, a, b)) == Sum(x)
  {
    SumPoint(x, a, x[b]);
    SumPoint(x[a := x[b]], b, x[a]);
  }

  /** One entry changed, the total changes by the difference. */
  lemma {:induction false} SumPoint(x: seq<int>, a: nat, v: int)
    requires a < |x|
    ensures Sum(x[a := v]) == Sum(x) - x[a] + v
  {
    var n := |x| - 1;
    if a < n {
      assert x[a := v][..n] == x[..n][a := v];
      SumPoint(x[..n], a, v);
    } else {
      assert x[a := v][..n] == x[..n];
    }
  }

  lemma BackColSwap(m0: Matrix, m: Matrix, a: nat, b: nat)
    requires Back(m0, m) && a < Vars(m) && b < Vars(m)
    ensures Back(m0, ColSwapped(m, a, b))
  {
    var n := ColSwapped(m, a, b);
    forall x | Valid(n, x) ensures Covered(m0, Sum(x), false) && (Supported(n, x) ==> Covered(m0, Sum(x), true)) {
      var y := SwapAt(x, a, b);
      assert SwapAt(y, a, b) == x;
      ColSwapSolves(m, a, b, y);
      SumSwap(x, a, b);
      assert Valid(m, y);
      if Supported(n, x) {
        forall k | 0 <= k < |y| && y[k] > 0 ensures Used(m, k) {
          var k' := if k == a then b else if k == b then a else k;
          assert x[k'] == y[k];
          var r :| 0 <= r < |n| && n[r][k'] != 0;
          assert m[r][k] != 0;
        }
      }
    }
    ColSwapSolves(m, a, b, seq(Vars(m), _ => 0));
  }

  /** The length of the diagonal, `minInt(m.rows(), m.cols())`. */
  function Diag(m: Matrix): nat
    requires Rect(m)
  {
    if |m| < Cols(m) then |m| else Cols(m)
  }

  /** The first `col` columns are reduced: zero below the diagonal, and the
      diagonal entry not negative. */
  ghost predicate Echelon(m: Matrix, col: nat)
    requires Rect(m) && col <= |m| && col <= Cols(m)
  {
    forall c :: 0 <= c < col ==> Reduced(m, c)
  }

  /** Column c is reduced: zero below the diagonal, and the diagonal entry
      not negative. */
  ghost predicate Reduced(m: Matrix, c: nat)
    requires Rect(m) && c < |m| && c < Cols(m)
  {
    m[c][c] >= 0 && forall i :: c < i < |m| ==> m[i][c] == 0
  }

  /** A row operation of `reduce` at column col on a matrix reduced before
      col: the matrix stays rectangular, reduced before col, and solutions
      of the new matrix still give solutions of m0. */
  ghost predicate Kept(m0: Matrix, m: Matrix, n: Matrix, col: nat)
  {
    Back(m0, n) && |n| == |m| && Cols(n) == Cols(m) && col <= |n| && col <= Cols(n)
    && Echelon(n, col)
  }

  lemma SwapKeeps(m0: Matrix, m: Matrix, col: nat, i: nat, j: nat)
    requires Kept(m0, m, m, col) && col <= i < |m| && col <= j < |m|
    ensures Kept(m0, m, Swap(m, i, j), col)
  {
    BackSwap(m0, m, i, j);
    SwapSolves(m, i, j, seq(Vars(m), _ => 0));
    var n := Swap(m, i, j);
    forall c | 0 <= c < col ensures Reduced(n, c) {
      assert Reduced(m, c);
      assert n[c] == m[c];
      forall k | c < k < |n| ensures n[k][c] == 0 {
        assert n[k] == m[if k == i then j else if k == j then i else k];
      }
    }
  }

  lemma NegateKeeps(m0: Matrix, m: Matrix, col: nat)
    requires Kept(m0, m, m, col) && col < |m|
    ensures Kept(m0, m, m[col := Negated(m[col])], col)
  {
    BackNegate(m0, m, col);
    NegateSolves(m, col, seq(Vars(m), _ => 0));
    var n := m[col := Negated(m[col])];
    forall c | 0 <= c < col ensures Reduced(n, c) {
      assert Reduced(m, c);
      assert n[col][c] == m[col][c] * -1 == 0;
      assert forall k :: 0 <= k < |n| && k != col ==> n[k] == m[k];
    }
  }

  lemma AddKeeps(m0: Matrix, m: Matrix, col: nat, dest: nat, f: int)
    requires Kept(m0, m, m, col) && col < |m| && dest < |m| && dest != col
    ensures Kept(m0, m, m[dest := AddRow(m[dest], m[col], f)], col)
  {
    BackAdd(m0, m, dest, col, f);
    AddSolves(m, dest, col, f, seq(Vars(m), _ => 0));
    var n := m[dest := AddRow(m[dest], m[col], f)];
    forall c | 0 <= c < col ensures Reduced(n, c) {
      assert Reduced(m, c);
      assert n[dest][c] == m[dest][c] + m[col][c] * f == m[dest][c];
      assert forall k :: 0 <= k < |n| && k != dest ==> n[k] == m[k];
    }
  }

  lemma ColSwapKeeps(m0: Matrix, m: Matrix, col: nat, a: nat, b: nat)
    requires Kept(m0, m, m, col) && col <= a < Vars(m) && col <= b < Vars(m)
    ensures Kept(m0, m, ColSwapped(m, a, b), col)
  {
    BackColSwap(m0, m, a, b);
    ColSwapSolves(m, a, b, seq(Vars(m), _ => 0));
    var n := ColSwapped(m, a, b);
    forall c | 0 <= c < col ensures Reduced(n, c) {
      assert Reduced(m, c);
      forall k | 0 <= k < |n| ensures n[k][c] == m[k][c] {
        assert n[k] == SwapAt(m[k], a, b);
      }
    }
  }

  // ---------------------------------------------------------------- reduce

  /** The first inner loop of `reduce`: rows below col are swapped up so
      that the diagonal entry of column col is its nonzero entry, at or
      below the diagonal, of least magnitude. */
  method SwapUp(ghost m0: Matrix, m: Matrix, col: nat) returns (n: Matrix)
    requires Kept(m0, m, m, col) && col < |m| && col < Cols(m)
    ensures Kept(m0, m, n, col)
    ensures forall j :: col <= j < |m| && m[j][col] != 0 ==> n[col][col] != 0 && Abs(n[col][col]) <= Abs(m[j][col])
    ensures forall j :: col < j < |n| && n[j][col] != 0 ==> n[col][col] != 0 && Abs(n[col][col]) <= Abs(n[j][col])
  {
    n := m;
    var i := col + 1;
    while i < |n|
      invariant Kept(m0, m, n, col) && col + 1 <= i <= |n|
      invariant forall j :: i <= j < |n| ==> n[j] == m[j]
      invariant forall j :: col <= j < i && m[j][col] != 0 ==> n[col][col] != 0 && Abs(n[col][col]) <= Abs(m[j][col])
      invariant forall j :: col < j < i && n[j][col] != 0 ==> n[col][col] != 0 && Abs(n[col][col]) <= Abs(n[j][col])
    {
      if n[col][col] == 0 && n[i][col] != 0 {
        SwapKeeps(m0, n, col, col, i);
        n := Swap(n, col, i);
      } else if n[i][col] != 0 && Abs(n[i][col]) < Abs(n[col][col]) {
        SwapKeeps(m0, n, col, col, i);
        n := Swap(n, col, i);
      }
      i := i + 1;
    }
  }

  /** The column loop of `reduce`: when the diagonal entry is zero, the
      first later variable column with a nonzero entry in row col is
      exchanged with column col. */
  method SwapInColumn(ghost m0: Matrix, m: Matrix, col: nat) returns (n: Matrix, swapped: bool)
    requires Kept(m0, m, m, col) && col < |m| && col < Cols(m)
    ensures Kept(m0, m, n, col)
    ensures swapped ==> n[col][col] != 0
    ensures !swapped ==> n == m && forall c :: col < c < Vars(m) ==> m[col][c] == 0
  {
    var c := col + 1;
    assert |m[col]| == Cols(m);
    while c < Cols(m) - 1
      invariant col + 1 <= c <= Cols(m)
      invariant forall c' :: col < c' < c ==> m[col][c'] == 0
    {
      if m[col][c] != 0 {
        ColSwapKeeps(m0, m, col, col, c);
        n := ColSwap(m, col, c);
        return n, true;
      }
      c := c + 1;
    }
    return m, false;
  }

  /** The zero-row loop of `reduce`: with column col zero on and below the
      diagonal, the first all-zero row at or below col, if any, is
      exchanged into row col; the first col + 1 columns are then reduced. */
  method ZeroRowUp(ghost m0: Matrix, m: Matrix, col: nat) returns (n: Matrix)
    requires Kept(m0, m, m, col) && col < |m| && col < Cols(m)
    requires forall j :: col <= j < |m| ==> m[j][col] == 0
    ensures Kept(m0, m, n, col + 1)
  {
    n := m;
    var i := col;
    while i < |n|
      invariant col <= i && Kept(m0, m, n, col)
      invariant forall j :: col <= j < |n| ==> n[j][col] == 0
    {
      var r := Rightmost(n, i);
      if r == -1 {
        if i != col {
          SwapKeeps(m0, n, col, col, i);
          n := Swap(n, col, i);
        }
        break;
      }
      i := i + 1;
    }
    assert Reduced(n, col);
  }

  /** The elimination loop of `reduce`: every other row loses the truncated
      multiple of row col that cancels its entry in column col as far as
      it divides. It stops at the first row below col whose entry is not
      cancelled, which is then smaller than the diagonal entry; otherwise
      the first col + 1 columns are reduced. */
  method Eliminate(ghost m0: Matrix, m: Matrix, col: nat) returns (n: Matrix, stuck: Option<nat>)
    requires Kept(m0, m, m, col) && col < |m| && col < Cols(m) && m[col][col] > 0
    ensures Kept(m0, m, n, col) && n[col][col] == m[col][col]
    ensures stuck.Some? ==> col < stuck.value < |n| && 0 < Abs(n[stuck.value][col]) < m[col][col]
    ensures stuck.None? ==> Echelon(n, col + 1)
  {
    n := m;
    var i := 0;
    while i < |n|
      invariant Kept(m0, m, n, col) && 0 <= i <= |n|
      invariant n[col][col] == m[col][col]
      invariant forall j :: col < j < i ==> n[j][col] == 0
      invariant forall j :: i <= j < |n| ==> n[j] == m[j]
    {
      if i != col && n[i][col] != 0 {
        n := EliminateRow(m0, n, col, i);
        if i > col && n[i][col] != 0 {
          return n, Some(i);
        }
      }
      i := i + 1;
    }
    assert Reduced(n, col);
    return n, None;
  }

  /** One row of the elimination loop: the truncated quotient of its entry
      in column col by the diagonal entry, times row col, is subtracted,
      leaving the truncated remainder. */
  method EliminateRow(ghost m0: Matrix, m: Matrix, col: nat, i: nat) returns (n: Matrix)
    requires Kept(m0, m, m, col) && col < |m| && col < Cols(m) && m[col][col] > 0
    requires i < |m| && i != col
    ensures Kept(m0, m, n, col)
    ensures forall j :: 0 <= j < |n| && j != i ==> n[j] == m[j]
    ensures n[i][col] == Modular.TRem(m[i][col], m[col][col])
  {
    var factor := Modular.TDiv(m[i][col], m[col][col]);
    Modular.TDivRem(m[i][col], m[col][col]);
    AddKeeps(m0, m, col, i, factor * -1);
    n := Add(m, i, col, factor * -1);
    assert n[i][col] == m[i][col] + m[col][col] * (factor * -1);
  }

  /** `reduce`: integer row operations, and exchanges of variable columns,
      bring the matrix to upper triangular form with a non-negative
      diagonal. Solutions of the result in press counts are, after the
      column exchanges are undone, solutions of the original with the same
      total. */
  method Reduce(m0: Matrix) returns (m: Matrix)
    requires Rect(m0)
    ensures Kept(m0, m0, m, 0) && Echelon(m, Diag(m))
  {
    m := m0;
    BackRefl(m0);
    var col := 0;
    // `cand`: some entry of column col at or below the diagonal is nonzero
    // and at most `bound` in magnitude (row w holds one)
    ghost var cand := false;
    ghost var bound: nat := 0;
    ghost var w: nat := 0;
    while col < Diag(m)
      invariant Kept(m0, m0, m, col)
      invariant cand ==> col < |m| && col < Cols(m) && col <= w < |m| && m[w][col] != 0 && Abs(m[w][col]) <= bound
      decreases Diag(m) - col, if cand then 0 else 1, bound
    {
      ghost var headCand := cand;
      ghost var headBound := bound;
      ghost var before := m;
      m := SwapUp(m0, m, col);
      assert headCand ==> Abs(m[col][col]) <= headBound by {
        if headCand {
          assert before[w][col] != 0;
        }
      }
      if m[col][col] == 0 {
        var swapped;
        m, swapped := SwapInColumn(m0, m, col);
        if swapped {
          cand, bound, w := true, Abs(m[col][col]), col;
          continue;
        }
        m := ZeroRowUp(m0, m, col);
        col := col + 1;
        cand := false;
        continue;
      }
      if m[col][col] < 0 {
        NegateKeeps(m0, m, col);
        m := Negate(m, col);
      }
      var stuck;
      m, stuck := Eliminate(m0, m, col);
      if stuck.Some? {
        cand, bound, w := true, Abs(m[stuck.value][col]), stuck.value;
        continue;
      }
      col := col + 1;
      cand := false;
    }
  }

  // ---------------------------------------------------------------- backSubstitute

  /** What `backSubstitute` carries from row to row: the values of all the
      variables (the 13 entries of `vals`), the total magnitude by which
      rows failed, and whether every row has held so far. */
  datatype Sub = Sub(all: seq<int>, rem: int, ok: bool)

  /** The right-hand side of row r less the terms of the variables after
      column r. */
  function Residual(m: Matrix, all: seq<int>, r: nat): int
    requires Rect(m) && r < |m| && Vars(m) <= |all|
  {
    m[r][Vars(m)] - Dot(m[r], all, r + 1, Vars(m))
  }

  /** Row r has no diagonal entry to solve for. As written this is the case
      when r > cols - 1 or the entry is zero, so that on a matrix with more
      rows than variables row cols - 1 divides by its right-hand side;
      `fixed` also counts r == cols - 1, which has no variable. */
  predicate NoPivot(m: Matrix, r: nat, fixed: bool)
    requires Rect(m) && r < |m|
  {
    (if fixed then r >= Cols(m) - 1 else r > Cols(m) - 1) || m[r][r] == 0
  }

  /** One row of `backSubstitute`. Without a diagonal entry a nonzero
      residual fails the row; otherwise a negative residual fails it, and
      the variable takes the truncated quotient when the division is exact.
      Storing into `all` past its 13 entries is Go's index panic. */
  function Step(m: Matrix, s: Sub, r: nat, fixed: bool): Result<Sub>
    requires Rect(m) && r < |m| && Vars(m) <= |s.all|
  {
    var v := Residual(m, s.all, r);
    if NoPivot(m, r, fixed) then
      if v != 0 then Ok(Sub(s.all, s.rem + Abs(v), false)) else Ok(s)
    else
      var p := m[r][r];
      var rem := if v < 0 then s.rem + -1 * v else s.rem;
      var ok := s.ok && v >= 0;
      if Modular.TRem(v, p) == 0 then
        if r < |s.all| then Ok(Sub(s.all[r := Modular.TDiv(v, p)], rem, ok))
        else Err("index out of range")
      else
        Ok(Sub(s.all, rem, false))
  }

  /** The state after rows |m| - 1 down to r. */
  function BackFrom(m: Matrix, vals: seq<int>, r: nat, fixed: bool): (res: Result<Sub>)
    requires Rect(m) && r <= |m| && Vars(m) <= |vals|
    ensures res.Ok? ==> |res.value.all| == |vals|
    decreases |m| - r
  {
    if r == |m| then Ok(Sub(vals, 0, true))
    else
      match BackFrom(m, vals, r + 1, fixed)
      case Err(e) => Err(e)
      case Ok(s) => Step(m, s, r, fixed)
  }

  /** `backSubstitute`, row by row from the bottom: the variables with a
      diagonal entry are solved for, the others keep their values. */
  method BackSubstitute(m: Matrix, vals: seq<int>, fixed: bool) returns (r: Result<Sub>)
    requires Rect(m) && Vars(m) <= |vals|
    ensures r == BackFrom(m, vals, 0, fixed)
  {
    var s := Sub(vals, 0, true);
    var row := |m|;
    while row > 0
      invariant 0 <= row <= |m|
      invariant BackFrom(m, vals, row, fixed) == Ok(s)
    {
      row := row - 1;
      assert |m[row]| == Cols(m);
      var v := m[row][Cols(m) - 1];
      var c := Cols(m) - 2;
      while c > row
        invariant c + 1 <= Vars(m) && (c >= row || c + 1 == Vars(m))
        invariant v == m[row][Vars(m)] - Dot(m[row], s.all, c + 1, Vars(m))
      {
        v := v - s.all[c] * m[row][c];
        c := c - 1;
      }
      assert v == Residual(m, s.all, row);
      if row > Cols(m) - 1 || (fixed && row == Cols(m) - 1) || m[row][row] == 0 {
        if v != 0 {
          s := Sub(s.all, s.rem + Abs(v), false);
        }
      } else {
        var rem := s.rem;
        var ok := s.ok;
        if v < 0 {
          ok := false;
          rem := rem + -1 * v;
        }
        if Modular.TRem(v, m[row][row]) == 0 {
          if row >= |s.all| {
            ErrStays(m, vals, row, fixed);
            return Err("index out of range");
          }
          s := Sub(s.all[row := Modular.TDiv(v, m[row][row])], rem, ok);
        } else {
          s := Sub(s.all, rem, false);
        }
      }
    }
    r := Ok(s);
  }

  /** An index panic at row r ends the whole substitution. */
  lemma {:induction false} ErrStays(m: Matrix, vals: seq<int>, r: nat, fixed: bool)
    requires Rect(m) && r <= |m| && Vars(m) <= |vals| && BackFrom(m, vals, r, fixed).Err?
    ensures BackFrom(m, vals, 0, fixed) == BackFrom(m, vals, r, fixed)
  {
    if r > 0 {
      ErrStays(m, vals, r - 1, fixed);
    }
  }

  /** Terms whose row entry is zero can be skipped. */
  lemma {:induction false} DotSkip(row: seq<int>, x: seq<int>, lo: nat, k: nat, hi: nat)
    requires hi <= |row| && hi <= |x| && lo <= k
    requires forall c :: lo <= c < k && c < hi ==> row[c] == 0
    ensures Dot(row, x, lo, hi) == Dot(row, x, k, hi)
    decreases k - lo
  {
    if lo < k && lo < hi {
      DotSkip(row, x, lo + 1, k, hi);
    }
  }

  /** After a clean run of the rows from r down (the `fixed` reading, on a
      reduced matrix, from non-negative values): the values are non-negative,
      only variables of rows r and above with a nonzero diagonal entry were
      solved for, and every row from r on holds. */
  lemma {:induction false} BackHolds(m: Matrix, vals: seq<int>, r: nat)
    requires Rect(m) && r <= |m| && Vars(m) <= |vals| && Echelon(m, Diag(m)) && Nonneg(vals)
    requires BackFrom(m, vals, r, true).Ok? && BackFrom(m, vals, r, true).value.ok
    ensures Nonneg(BackFrom(m, vals, r, true).value.all)
    ensures forall k :: 0 <= k < |vals| && BackFrom(m, vals, r, true).value.all[k] != vals[k] ==>
              r <= k < Vars(m) && k < |m| && m[k][k] != 0
    ensures forall i :: r <= i < |m| ==>
              Dot(m[i], BackFrom(m, vals, r, true).value.all, 0, Vars(m)) == m[i][Vars(m)]
    decreases |m| - r
  {
    if r < |m| {
      var s := BackFrom(m, vals, r + 1, true).value;
      BackHolds(m, vals, r + 1);
      var a := BackFrom(m, vals, r, true).value.all;
      var n := Vars(m);
      var v := Residual(m, s.all, r);
      assert |m[r]| == Cols(m);
      if NoPivot(m, r, true) {
        forall c | 0 <= c < r && c < n ensures m[r][c] == 0 {
          assert Reduced(m, c);
        }
        assert a == s.all && v == 0;
        DotSkip(m[r], a, 0, r + 1, n);
      } else {
        var p := m[r][r];
        assert Reduced(m, r);
        var q := Modular.TDiv(v, p);
        assert v >= 0 && Modular.TRem(v, p) == 0;
        ExactQuotient(v, p);
        assert a == s.all[r := q];
        SolveRow(m, s.all, r, q);
      }
    }
  }

  lemma ExactQuotient(v: int, p: int)
    requires v >= 0 && p > 0 && Modular.TRem(v, p) == 0
    ensures Modular.TDiv(v, p) >= 0 && Modular.TDiv(v, p) * p == v
  {
    Modular.TDivRem(v, p);
  }

  /** Setting the variable of row r to the quotient of its residual by its
      diagonal entry makes row r hold and keeps the rows below holding. */
  lemma SolveRow(m: Matrix, all: seq<int>, r: nat, q: int)
    requires Rect(m) && r < |m| && r < Vars(m) <= |all| && Echelon(m, Diag(m))
    requires q * m[r][r] == Residual(m, all, r)
    requires forall i :: r < i < |m| ==> Dot(m[i], all, 0, Vars(m)) == m[i][Vars(m)]
    ensures forall i :: r <= i < |m| ==> Dot(m[i], all[r := q], 0, Vars(m)) == m[i][Vars(m)]
  {
    SolveRowHolds(m, all, r, q);
    forall i | r < i < |m| ensures Dot(m[i], all[r := q], 0, Vars(m)) == m[i][Vars(m)] {
      SolveRowKeeps(m, all, r, q, i);
    }
  }

  lemma SolveRowHolds(m: Matrix, all: seq<int>, r: nat, q: int)
    requires Rect(m) && r < |m| && r < Vars(m) <= |all| && Echelon(m, Diag(m))
    requires q * m[r][r] == Residual(m, all, r)
    ensures Dot(m[r], all[r := q], 0, Vars(m)) == m[r][Vars(m)]
  {
    var n := Vars(m);
    var a := all[r := q];
    assert |m[r]| == Cols(m);
    forall c | 0 <= c < r && c < n ensures m[r][c] == 0 {
      assert Reduced(m, c);
    }
    DotSkip(m[r], a, 0, r, n);
    DotFrame(m[r], a, m[r], all, r + 1, n);
  }

  lemma SolveRowKeeps(m: Matrix, all: seq<int>, r: nat, q: int, i: nat)
    requires Rect(m) && r < i < |m| && r < Vars(m) <= |all| && Echelon(m, Diag(m))
    requires Dot(m[i], all, 0, Vars(m)) == m[i][Vars(m)]
    ensures Dot(m[i], all[r := q], 0, Vars(m)) == m[i][Vars(m)]
  {
    assert |m[i]| == Cols(m);
    assert Reduced(m, r);
    DotPoint(m[i], all, r, m[i][r], q, 0, Vars(m));
    assert m[i][r := m[i][r]] == m[i];
  }

  /** Under the corrected reading, a clean back substitution on a reduced
      matrix solves it in press counts, starting from non-negative values;
      when the starting values are positive only at used columns, so is
      the solution. */
  lemma BackSound(m: Matrix, vals: seq<int>)
    requires Rect(m) && Vars(m) <= |vals| && Echelon(m, Diag(m)) && Nonneg(vals)
    requires BackFrom(m, vals, 0, true).Ok? && BackFrom(m, vals, 0, true).value.ok
    ensures Valid(m, BackFrom(m, vals, 0, true).value.all[..Vars(m)])
    ensures (forall k :: 0 <= k < Vars(m) && vals[k] > 0 ==> Used(m, k)) ==>
              Supported(m, BackFrom(m, vals, 0, true).value.all[..Vars(m)])
  {
    var a := BackFrom(m, vals, 0, true).value.all;
    var x := a[..Vars(m)];
    BackHolds(m, vals, 0);
    forall i | 0 <= i < |m| ensures Holds(m[i], x) {
      assert |m[i]| == Cols(m);
      DotFrame(m[i], x, m[i], a, 0, Vars(m));
    }
    if forall k :: 0 <= k < Vars(m) && vals[k] > 0 ==> Used(m, k) {
      forall k | 0 <= k < |x| && x[k] > 0 ensures Used(m, k) {
        if a[k] != vals[k] {
          assert m[k][k] != 0;
        }
      }
    }
  }

  /** As written, on a matrix with more rows than variables, row cols - 1
      divides by its own right-hand side. The machine `[#] (0) {1,2}` (one
      button, raising counter 0, and targets 1 and 2) reduces to this
      matrix, whose second row says 0 = 2; the substitution as written
      still reports a clean solution of total 2, and the corrected reading
      reports the failure. */
  lemma AsWrittenAcceptsUnsolvable()
    ensures var m: Matrix := [[1, 1], [0, 2]];
      var zeros := seq(13, _ => 0);
      Rect(m) && Echelon(m, Diag(m))
      && (forall x :: |x| == Vars(m) ==> !Solves(m, x))
      && BackFrom(m, zeros, 0, false) == Ok(Sub(zeros[0 := 1][1 := 1], 0, true))
      && Sum(zeros[0 := 1][1 := 1]) == 2
      && BackFrom(m, zeros, 0, true).Ok? && !BackFrom(m, zeros, 0, true).value.ok
  {
    var m: Matrix := [[1, 1], [0, 2]];
    var zeros := seq(13, _ => 0);
    assert Reduced(m, 0) && Reduced(m, 1);
    forall x | |x| == Vars(m) ensures !Solves(m, x) {
      assert !Holds(m[1], x);
    }
    var s1 := Sub(zeros[1 := 1], 0, true);
    assert Residual(m, zeros, 1) == 2;
    assert Modular.TRem(2, 2) == 0 && Modular.TDiv(2, 2) == 1;
    assert BackFrom(m, zeros, 1, false) == Ok(s1);
    assert Residual(m, s1.all, 0) == 1;
    assert Modular.TRem(1, 1) == 0 && Modular.TDiv(1, 1) == 1;
    assert s1.all[0 := 1] == zeros[0 := 1][1 := 1];
    assert BackFrom(m, zeros, 0, false) == Ok(Sub(zeros[0 := 1][1 := 1], 0, true));
    SumPoint(zeros, 0, 1);
    SumPoint(zeros[0 := 1], 1, 1);
    SumZeros(13);
    assert BackFrom(m, zeros, 1, true) == Ok(Sub(zeros, 2, false));
  }

  lemma {:induction false} SumZeros(n: nat)
    ensures Sum(seq(n, _ => 0)) == 0
  {
    if n > 0 {
      assert seq(n, _ => 0)[..n - 1] == seq(n - 1, _ => 0);
      SumZeros(n - 1);
    }
  }

  // ---------------------------------------------------------------- from the machine to the matrix

  /** The `sort.SliceStable` of the buttons by `bits.OnesCount`, most bits
      first, as a stable insertion sort. */
  function SortByOnes(bs: seq<Bits>): (r: seq<Bits>)
    ensures |r| == |bs|
  {
    if bs == [] then [] else InsertByOnes(SortByOnes(bs[..|bs| - 1]), bs[|bs| - 1])
  }

  /** b placed after the last element with at least as many bits. */
  function InsertByOnes(s: seq<Bits>, b: Bits): (r: seq<Bits>)
    ensures |r| == |s| + 1
  {
    if s == [] || |b| <= |s[|s| - 1]| then s + [b]
    else InsertByOnes(s[..|s| - 1], b) + [s[|s| - 1]]
  }

  /** Buttons in order of non-increasing bit count. */
  predicate ByOnes(s: seq<Bits>)
  {
    forall i, j :: 0 <= i < j < |s| ==> |s[i]| >= |s[j]|
  }

  lemma {:induction false} InsertByOnesPerm(s: seq<Bits>, b: Bits)
    ensures multiset(InsertByOnes(s, b)) == multiset(s) + multiset{b}
    decreases |s|
  {
    if s != [] && |b| > |s[|s| - 1]| {
      var s' := s[..|s| - 1];
      assert s == s' + [s[|s| - 1]];
      InsertByOnesPerm(s', b);
    }
  }

  lemma {:induction false} InsertByOnesSorted(s: seq<Bits>, b: Bits)
    requires ByOnes(s)
    ensures ByOnes(InsertByOnes(s, b))
    decreases |s|
  {
    if s != [] && |b| > |s[|s| - 1]| {
      var s' := s[..|s| - 1];
      var l := s[|s| - 1];
      assert ByOnes(s');
      InsertByOnesSorted(s', b);
      var t := InsertByOnes(s', b);
      InsertByOnesPerm(s', b);
      forall k | 0 <= k < |t| ensures |t[k]| >= |l| {
        assert t[k] in multiset(t);
        if t[k] != b {
          assert t[k] in multiset(s');
          var k' :| 0 <= k' < |s'| && s'[k'] == t[k];
          assert s[k'] == t[k];
        }
      }
    }
  }

  /** The buttons are sorted by bit count, most first, and are a
      permutation of the machine's. */
  lemma {:induction false} SortByOnesSorted(bs: seq<Bits>)
    ensures ByOnes(SortByOnes(bs)) && multiset(SortByOnes(bs)) == multiset(bs)
  {
    if bs != [] {
      SortByOnesSorted(bs[..|bs| - 1]);
      InsertByOnesSorted(SortByOnes(bs[..|bs| - 1]), bs[|bs| - 1]);
      InsertByOnesPerm(SortByOnes(bs[..|bs| - 1]), bs[|bs| - 1]);
      assert bs == bs[..|bs| - 1] + [bs[|bs| - 1]];
    }
  }

  /** The weight rows are sorted by: the sum of the coefficients. */
  function Weight(row: seq<int>): int
    requires |row| >= 1
  {
    Sum(row[..|row| - 1])
  }

  /** The `less` of the row sort: smaller weight, and on equal weights the
      smaller right-hand side. */
  predicate RowLess(a: seq<int>, b: seq<int>)
    requires |a| >= 1 && |b| >= 1
  {
    if Weight(a) == Weight(b) then a[|a| - 1] < b[|b| - 1] else Weight(a) < Weight(b)
  }

  /** No row is empty. */
  predicate Rows(m: Matrix)
  {
    forall i :: 0 <= i < |m| ==> |m[i]| >= 1
  }

  /** The `sort.SliceStable` of the rows by `RowLess`, as a stable
      insertion sort. */
  function SortRows(m: Matrix): (r: Matrix)
    requires Rows(m)
    ensures |r| == |m| && forall z :: z in r <==> z in m
  {
    if m == [] then []
    else
      var s := SortRows(m[..|m| - 1]);
      assert forall z :: z in m <==> z in m[..|m| - 1] || z == m[|m| - 1] by {
        assert m == m[..|m| - 1] + [m[|m| - 1]];
      }
      assert Rows(s) by {
        forall i | 0 <= i < |s| ensures |s[i]| >= 1 {
          assert s[i] in m;
        }
      }
      InsertRow(s, m[|m| - 1])
  }

  /** row placed after the last row it is not less than. */
  function InsertRow(s: Matrix, row: seq<int>): (r: Matrix)
    requires Rows(s) && |row| >= 1
    ensures |r| == |s| + 1 && forall z :: z in r <==> z in s || z == row
  {
    if s == [] || !RowLess(row, s[|s| - 1]) then s + [row]
    else
      assert forall z :: z in s <==> z in s[..|s| - 1] || z == s[|s| - 1] by {
        assert s == s[..|s| - 1] + [s[|s| - 1]];
      }
      InsertRow(s[..|s| - 1], row) + [s[|s| - 1]]
  }

  /** Rows in order: no row is less than an earlier one. */
  predicate RowsSorted(s: Matrix)
    requires Rows(s)
  {
    forall i, j :: 0 <= i < j < |s| ==> !RowLess(s[j], s[i])
  }

  lemma {:induction false} InsertRowSorted(s: Matrix, row: seq<int>)
    requires Rows(s) && |row| >= 1 && RowsSorted(s)
    ensures Rows(InsertRow(s, row)) && RowsSorted(InsertRow(s, row))
    decreases |s|
  {
    if s == [] || !RowLess(row, s[|s| - 1]) {
    } else {
      var s' := s[..|s| - 1];
      var l := s[|s| - 1];
      assert RowsSorted(s');
      InsertRowSorted(s', row);
      var t := InsertRow(s', row);
      forall z | z in t ensures !RowLess(l, z) {
        if z != row {
          var k :| 0 <= k < |s'| && s'[k] == z;
          assert s[k] == z;
        }
      }
    }
  }

  /** The rows are sorted by weight, then right-hand side. */
  lemma {:induction false} SortRowsSorted(m: Matrix)
    requires Rows(m)
    ensures Rows(SortRows(m)) && RowsSorted(SortRows(m))
  {
    if m != [] {
      SortRowsSorted(m[..|m| - 1]);
      InsertRowSorted(SortRows(m[..|m| - 1]), m[|m| - 1]);
    }
  }

  /** The matrix `machinePart2` builds: entry (i, j) is 1 when button j
      raises counter i, and the last column holds the targets. */
  function Built(bs: seq<Bits>, joltage: seq<int>): Matrix
  {
    seq(|joltage|, i requires 0 <= i < |joltage| =>
      seq(|bs| + 1, j requires 0 <= j <= |bs| =>
        if j < |bs| then (if i in bs[j] then 1 else 0) else joltage[i]))
  }

  /** The matrix `machinePart2` reduces: buttons sorted by bit count, rows
      sorted by weight. */
  function Initial(mc: Y2025Day10.Machine): Matrix
  {
    var b := Built(SortByOnes(mc.buttons), mc.joltage);
    assert Rows(b) by {
      forall i | 0 <= i < |b| ensures |b[i]| >= 1 {
      }
    }
    SortRows(b)
  }

  lemma InitialRect(mc: Y2025Day10.Machine)
    requires |mc.joltage| >= 1
    ensures Rect(Initial(mc)) && Cols(Initial(mc)) == |mc.buttons| + 1 && |Initial(mc)| == |mc.joltage|
  {
    var b := Built(SortByOnes(mc.buttons), mc.joltage);
    var m := Initial(mc);
    forall i | 0 <= i < |m| ensures |m[i]| == |mc.buttons| + 1 {
      assert m[i] in b;
    }
  }

  // ---------------------------------------------------------------- press counts

  /** Counter i after pressing each button bs[k] x[k] times. */
  function Counter(bs: seq<Bits>, x: seq<int>, i: nat): int
    requires |x| == |bs|
  {
    if bs == [] then 0 else (if i in bs[0] then x[0] else 0) + Counter(bs[1..], x[1..], i)
  }

  /** Press counts x for the buttons bs bring every counter to its target. */
  ghost predicate Reach(bs: seq<Bits>, joltage: seq<int>, x: seq<int>)
  {
    |x| == |bs| && Nonneg(x) && forall i :: 0 <= i < |joltage| ==> Counter(bs, x, i) == joltage[i]
  }

  /** Some press counts totalling t configure the machine's joltages. */
  ghost predicate Attainable(mc: Y2025Day10.Machine, t: int)
  {
    exists x :: Reach(mc.buttons, mc.joltage, x) && Sum(x) == t
  }

  lemma {:induction false} CounterAppend(a: seq<Bits>, c: seq<Bits>, x: seq<int>, y: seq<int>, i: nat)
    requires |x| == |a| && |y| == |c|
    ensures Counter(a + c, x + y, i) == Counter(a, x, i) + Counter(c, y, i)
    decreases |a|
  {
    if a == [] {
      assert a + c == c && x + y == y;
    } else {
      assert (a + c)[1..] == a[1..] + c && (x + y)[1..] == x[1..] + y;
      CounterAppend(a[1..], c, x[1..], y, i);
    }
  }

  /** Press counts for `InsertByOnes(s, b)` rearranged for s + [b]. */
  function UnInsert(s: seq<Bits>, b: Bits, x: seq<int>): (y: seq<int>)
    requires |x| == |s| + 1
    ensures |y| == |x|
    decreases |s|
  {
    if s == [] || |b| <= |s[|s| - 1]| then x
    else
      var y1 := UnInsert(s[..|s| - 1], b, x[..|x| - 1]);
      y1[..|y1| - 1] + [x[|x| - 1]] + [y1[|y1| - 1]]
  }

  lemma {:induction false} UnInsertCounter(s: seq<Bits>, b: Bits, x: seq<int>, i: nat)
    requires |x| == |s| + 1
    ensures Counter(s + [b], UnInsert(s, b, x), i) == Counter(InsertByOnes(s, b), x, i)
    decreases |s|
  {
    if s != [] && |b| > |s[|s| - 1]| {
      var s' := s[..|s| - 1];
      var l := s[|s| - 1];
      var x' := x[..|x| - 1];
      var y1 := UnInsert(s', b, x');
      UnInsertCounter(s', b, x', i);
      var y1' := y1[..|y1| - 1];
      var yb := y1[|y1| - 1];
      var xl := x[|x| - 1];
      assert x == x' + [xl] && y1 == y1' + [yb];
      assert s + [b] == s' + [l] + [b];
      CounterAppend(InsertByOnes(s', b), [l], x', [xl], i);
      CounterAppend(s', [b], y1', [yb], i);
      CounterAppend(s' + [l], [b], y1' + [xl], [yb], i);
      CounterAppend(s', [l], y1', [xl], i);
    }
  }

  lemma {:induction false} UnInsertSum(s: seq<Bits>, b: Bits, x: seq<int>)
    requires |x| == |s| + 1
    ensures Sum(UnInsert(s, b, x)) == Sum(x)
    decreases |s|
  {
    if s != [] && |b| > |s[|s| - 1]| {
      var s' := s[..|s| - 1];
      var x' := x[..|x| - 1];
      var y1 := UnInsert(s', b, x');
      UnInsertSum(s', b, x');
      var y := UnInsert(s, b, x);
      var y1' := y1[..|y1| - 1];
      assert y[..|y| - 1] == y1' + [x[|x| - 1]];
      assert (y1' + [x[|x| - 1]])[..|y1'|] == y1';
    }
  }

  lemma {:induction false} UnInsertNonneg(s: seq<Bits>, b: Bits, x: seq<int>)
    requires |x| == |s| + 1 && Nonneg(x)
    ensures Nonneg(UnInsert(s, b, x))
    decreases |s|
  {
    if s != [] && |b| > |s[|s| - 1]| {
      var s' := s[..|s| - 1];
      var x' := x[..|x| - 1];
      assert Nonneg(x');
      UnInsertNonneg(s', b, x');
    }
  }

  /** Press counts for `SortByOnes(bs)` rearranged for bs. */
  function Unsort(bs: seq<Bits>, x: seq<int>): (y: seq<int>)
    requires |x| == |bs|
    ensures |y| == |bs|
  {
    if bs == [] then []
    else
      var y := UnInsert(SortByOnes(bs[..|bs| - 1]), bs[|bs| - 1], x);
      Unsort(bs[..|bs| - 1], y[..|y| - 1]) + [y[|y| - 1]]
  }

  /** Presses on the sorted buttons, rearranged, raise every counter as
      much. */
  lemma {:induction false} UnsortCounter(bs: seq<Bits>, x: seq<int>, i: nat)
    requires |x| == |bs|
    ensures Counter(bs, Unsort(bs, x), i) == Counter(SortByOnes(bs), x, i)
  {
    if bs != [] {
      var bs' := bs[..|bs| - 1];
      var b := bs[|bs| - 1];
      var s := SortByOnes(bs');
      var y := UnInsert(s, b, x);
      UnInsertCounter(s, b, x, i);
      var y' := y[..|y| - 1];
      var yb := y[|y| - 1];
      assert y == y' + [yb] && bs == bs' + [b];
      UnsortCounter(bs', y', i);
      CounterAppend(bs', [b], Unsort(bs', y'), [yb], i);
      CounterAppend(s, [b], y', [yb], i);
    }
  }

  /** The rearranged presses total the same. */
  lemma {:induction false} UnsortSum(bs: seq<Bits>, x: seq<int>)
    requires |x| == |bs|
    ensures Sum(Unsort(bs, x)) == Sum(x)
  {
    if bs != [] {
      var bs' := bs[..|bs| - 1];
      var s := SortByOnes(bs');
      var y := UnInsert(s, bs[|bs| - 1], x);
      UnInsertSum(s, bs[|bs| - 1], x);
      var y' := y[..|y| - 1];
      UnsortSum(bs', y');
      var u := Unsort(bs, x);
      assert u[..|u| - 1] == Unsort(bs', y');
    }
  }

  /** The rearranged presses stay non-negative. */
  lemma {:induction false} UnsortNonneg(bs: seq<Bits>, x: seq<int>)
    requires |x| == |bs| && Nonneg(x)
    ensures Nonneg(Unsort(bs, x))
  {
    if bs != [] {
      var bs' := bs[..|bs| - 1];
      var s := SortByOnes(bs');
      var y := UnInsert(s, bs[|bs| - 1], x);
      UnInsertNonneg(s, bs[|bs| - 1], x);
      var y' := y[..|y| - 1];
      assert Nonneg(y');
      UnsortNonneg(bs', y');
    }
  }

  /** A row of the built matrix counts the presses of the buttons that
      raise its counter. */
  lemma {:induction false} DotBuilt(bs: seq<Bits>, joltage: seq<int>, i: nat, x: seq<int>, lo: nat)
    requires i < |joltage| && |x| == |bs| && lo <= |bs|
    ensures Dot(Built(bs, joltage)[i], x, lo, |bs|) == Counter(bs[lo..], x[lo..], i)
    decreases |bs| - lo
  {
    if lo < |bs| {
      DotBuilt(bs, joltage, i, x, lo + 1);
      assert bs[lo..][1..] == bs[lo + 1..] && x[lo..][1..] == x[lo + 1..];
    }
  }

  /** The total of the counters below R. */
  function CounterTotal(bs: seq<Bits>, x: seq<int>, r: nat): int
    requires |x| == |bs|
  {
    if r == 0 then 0 else CounterTotal(bs, x, r - 1) + Counter(bs, x, r - 1)
  }

  /** How many counters below R the button raises. */
  function Hits(b: Bits, r: nat): nat
  {
    if r == 0 then 0 else Hits(b, r - 1) + (if r - 1 in b then 1 else 0)
  }

  lemma {:induction false} TotalSplit(bs: seq<Bits>, x: seq<int>, r: nat)
    requires |x| == |bs| && bs != []
    ensures CounterTotal(bs, x, r) == Hits(bs[0], r) * x[0] + CounterTotal(bs[1..], x[1..], r)
  {
    if r > 0 {
      TotalSplit(bs, x, r - 1);
    }
  }

  lemma {:induction false} HitsPositive(b: Bits, r: nat, i: nat)
    requires i < r && i in b
    ensures Hits(b, r) >= 1
  {
    if i < r - 1 {
      HitsPositive(b, r - 1, i);
    }
  }

  /** The button raises some counter below r. */
  predicate Touches(b: Bits, r: nat)
  {
    exists i :: 0 <= i < r && i in b
  }

  /** Only buttons raising some counter below r are pressed. */
  predicate PressedTouch(bs: seq<Bits>, x: seq<int>, r: nat)
    requires |x| == |bs|
  {
    forall k :: 0 <= k < |x| && x[k] > 0 ==> Touches(bs[k], r)
  }

  lemma MulAtLeast(h: int, v: int)
    requires h >= 1 && v >= 0
    ensures h * v >= v
  {
  }

  /** Presses that are positive only at buttons raising some counter below
      r total at most the counters below r. */
  lemma {:induction false} TotalBound(bs: seq<Bits>, x: seq<int>, r: nat)
    requires |x| == |bs| && Nonneg(x) && PressedTouch(bs, x, r)
    ensures Sum(x) <= CounterTotal(bs, x, r)
    decreases |bs|
  {
    if bs == [] {
      ZeroTotal(x, r);
    } else {
      TotalSplit(bs, x, r);
      var bs', x' := bs[1..], x[1..];
      assert PressedTouch(bs', x', r) by {
        forall k | 0 <= k < |x'| && x'[k] > 0 ensures Touches(bs'[k], r) {
          assert x[k + 1] > 0;
        }
      }
      assert Nonneg(x') by {
        forall k | 0 <= k < |x'| ensures x'[k] >= 0 {
          assert x'[k] == x[k + 1];
        }
      }
      TotalBound(bs', x', r);
      assert x == [x[0]] + x';
      SumAppend([x[0]], x');
      assert Sum([x[0]]) == x[0];
      if x[0] > 0 {
        assert Touches(bs[0], r);
        var i :| 0 <= i < r && i in bs[0];
        HitsPositive(bs[0], r, i);
        MulAtLeast(Hits(bs[0], r), x[0]);
      } else {
        assert Hits(bs[0], r) * x[0] == 0;
      }
    }
  }

  lemma {:induction false} ZeroTotal(x: seq<int>, r: nat)
    requires x == []
    ensures CounterTotal([], x, r) == 0
  {
    if r > 0 {
      ZeroTotal(x, r - 1);
    }
  }

  lemma {:induction false} TotalTargets(bs: seq<Bits>, joltage: seq<int>, x: seq<int>, r: nat)
    requires |x| == |bs| && r <= |joltage|
    requires forall i :: 0 <= i < |joltage| ==> Counter(bs, x, i) == joltage[i]
    ensures CounterTotal(bs, x, r) == Sum(joltage[..r])
  {
    if r > 0 {
      TotalTargets(bs, joltage, x, r - 1);
      assert joltage[..r][..r - 1] == joltage[..r - 1];
    }
  }

  /** A solution of the initial matrix raises each counter, over the
      sorted buttons, to its joltage. */
  lemma {:induction false} InitialCounts(mc: Y2025Day10.Machine, x: seq<int>)
    requires |mc.joltage| >= 1
    requires Rect(Initial(mc)) && |x| == |mc.buttons|
    requires Cols(Initial(mc)) == |mc.buttons| + 1
    requires Solves(Initial(mc), x)
    ensures forall i :: 0 <= i < |mc.joltage| ==> Counter(SortByOnes(mc.buttons), x, i) == mc.joltage[i]
  {
    var buts := SortByOnes(mc.buttons);
    var b := Built(buts, mc.joltage);
    var m := Initial(mc);
    forall i | 0 <= i < |mc.joltage| ensures Counter(buts, x, i) == mc.joltage[i] {
      assert b[i] in m;
      var k :| 0 <= k < |m| && m[k] == b[i];
      assert Holds(m[k], x);
      DotBuilt(buts, mc.joltage, i, x, 0);
      assert buts[0..] == buts && x[0..] == x;
    }
  }

  /** A used column of the initial matrix is a button raising some counter. */
  lemma {:induction false} InitialUsed(mc: Y2025Day10.Machine, k: nat)
    requires |mc.joltage| >= 1
    requires Rect(Initial(mc)) && Cols(Initial(mc)) == |mc.buttons| + 1
    requires k < |mc.buttons| && Used(Initial(mc), k)
    ensures Touches(SortByOnes(mc.buttons)[k], |mc.joltage|)
  {
    var buts := SortByOnes(mc.buttons);
    var b := Built(buts, mc.joltage);
    var m := Initial(mc);
    var r :| 0 <= r < |m| && m[r][k] != 0;
    assert m[r] in b;
    var i :| 0 <= i < |b| && b[i] == m[r];
    assert i in buts[k];
  }

  /** A solution of the initial matrix in press counts configures the
      machine. */
  lemma {:induction false} CoveredAttainable(mc: Y2025Day10.Machine, t: int)
    requires |mc.joltage| >= 1
    ensures Rect(Initial(mc))
    ensures Covered(Initial(mc), t, false) ==> Attainable(mc, t)
  {
    InitialRect(mc);
    var m := Initial(mc);
    if Covered(m, t, false) {
      var x :| Valid(m, x) && Sum(x) == t;
      InitialCounts(mc, x);
      var y := Unsort(mc.buttons, x);
      forall i | 0 <= i < |mc.joltage| ensures Counter(mc.buttons, y, i) == mc.joltage[i] {
        UnsortCounter(mc.buttons, x, i);
      }
      UnsortSum(mc.buttons, x);
      UnsortNonneg(mc.buttons, x);
      assert Reach(mc.buttons, mc.joltage, y);
    }
  }

  /** A solution of the initial matrix positive only at used columns
      totals at most the sum of the joltages. */
  lemma {:induction false} CoveredBounded(mc: Y2025Day10.Machine, t: int)
    requires |mc.joltage| >= 1
    ensures Rect(Initial(mc))
    ensures Covered(Initial(mc), t, true) ==> t <= Sum(mc.joltage)
  {
    InitialRect(mc);
    var buts := SortByOnes(mc.buttons);
    var m := Initial(mc);
    if Covered(m, t, true) {
      var x :| Valid(m, x) && Supported(m, x) && Sum(x) == t;
      InitialCounts(mc, x);
      assert PressedTouch(buts, x, |mc.joltage|) by {
        forall k | 0 <= k < |x| && x[k] > 0 ensures Touches(buts[k], |mc.joltage|) {
          InitialUsed(mc, k);
        }
      }
      TotalBound(buts, x, |mc.joltage|);
      TotalTargets(buts, mc.joltage, x, |mc.joltage|);
      assert mc.joltage[..|mc.joltage|] == mc.joltage;
    }
  }

  // ---------------------------------------------------------------- building the matrix

  /** Entry (r, c) comes before entry (i, j) in row-major order. */
  predicate Before(r: int, c: int, i: int, j: int)
  {
    r < i || (r == i && c < j)
  }

  /** The loops of `machinePart2` that fill a zero matrix: a 1 where button j
      raises counter i, and the joltages in the last column. */
  method BuildMatrix(bs: seq<Bits>, joltage: seq<int>) returns (m: Matrix)
    ensures m == Built(bs, joltage)
  {
    m := seq(|joltage|, _ => seq(|bs| + 1, _ => 0));
    for i := 0 to |joltage|
      invariant |m| == |joltage|
      invariant forall r :: 0 <= r < |m| ==> |m[r]| == |bs| + 1 && m[r][|bs|] == 0
      invariant forall r, c {:trigger m[r][c]} :: 0 <= r < |m| && 0 <= c < |bs| ==>
                  m[r][c] == (if r < i && r in bs[c] then 1 else 0)
    {
      assert forall r, c {:trigger m[r][c]} :: 0 <= r < |m| && 0 <= c < |bs| ==>
               m[r][c] == (if Before(r, c, i, 0) && r in bs[c] then 1 else 0);
      for j := 0 to |bs|
        invariant |m| == |joltage|
        invariant forall r :: 0 <= r < |m| ==> |m[r]| == |bs| + 1 && m[r][|bs|] == 0
        invariant forall r, c {:trigger m[r][c]} :: 0 <= r < |m| && 0 <= c < |bs| ==>
                    m[r][c] == (if Before(r, c, i, j) && r in bs[c] then 1 else 0)
      {
        ghost var m' := m;
        if i in bs[j] {
          m := m[i := m[i][j := 1]];
        }
        forall r, c | 0 <= r < |m| && 0 <= c < |bs|
          ensures m[r][c] == (if Before(r, c, i, j + 1) && r in bs[c] then 1 else 0)
        {
          if r != i || c != j {
            assert m[r][c] == m'[r][c];
          }
        }
      }
    }
    for i := 0 to |joltage|
      invariant |m| == |joltage|
      invariant forall r :: 0 <= r < |m| ==> |m[r]| == |bs| + 1
      invariant forall r :: 0 <= r < |m| ==> m[r][|bs|] == (if r < i then joltage[r] else 0)
      invariant forall r, c {:trigger m[r][c]} :: 0 <= r < |m| && 0 <= c < |bs| ==> m[r][c] == (if r in bs[c] then 1 else 0)
    {
      m := m[i := m[i][|bs| := joltage[i]]];
    }
    forall r | 0 <= r < |m| ensures m[r] == Built(bs, joltage)[r] {
    }
  }

  /** The variables without a diagonal entry: those past the last row and
      those whose diagonal entry is zero. */
  function FreeSet(m: Matrix): set<nat>
    requires Rect(m)
  {
    set i: nat | i < Vars(m) && (i >= |m| || m[i][i] == 0)
  }

  /** The loop of `machinePart2` collecting the free variables. */
  method FreeVars(m: Matrix) returns (vars: set<nat>)
    requires Rect(m)
    ensures vars == FreeSet(m)
  {
    vars := {};
    for i := 0 to Vars(m)
      invariant vars == set k: nat | k < i && (k >= |m| || m[k][k] == 0)
    {
      if i >= |m| || m[i][i] == 0 {
        vars := vars + {i};
      }
    }
  }

  /** `sumSlice`. */
  method SumSlice(s: seq<int>) returns (t: int)
    ensures t == Sum(s)
  {
    t := 0;
    for k := 0 to |s|
      invariant t == Sum(s[..k])
    {
      assert s[..k + 1][..k] == s[..k];
      t := t + s[k];
    }
    assert s[..|s|] == s;
  }

  // ---------------------------------------------------------------- successors

  /** The values with variable i incremented. */
  function Inc(vals: seq<int>, i: nat): (r: seq<int>)
    requires i < |vals|
    ensures |r| == |vals| && r[i] == vals[i] + 1
    ensures forall k :: 0 <= k < |vals| && k != i ==> r[k] == vals[k]
  {
    vals[i := vals[i] + 1]
  }

  /** What a row's right-hand side still lacks under the values. */
  function Slack(row: seq<int>, vals: seq<int>): int
    requires |row| >= 1 && |row| - 1 <= |vals|
  {
    row[|row| - 1] - Dot(row, vals, 0, |row| - 1)
  }

  lemma {:induction false} DotLast(row: seq<int>, x: seq<int>, lo: nat, hi: nat)
    requires lo < hi <= |row| && hi <= |x|
    ensures Dot(row, x, lo, hi) == Dot(row, x, lo, hi - 1) + row[hi - 1] * x[hi - 1]
    decreases hi - lo
  {
    if lo < hi - 1 {
      DotLast(row, x, lo + 1, hi);
    }
  }

  /** Incrementing variable i lowers a row's slack by the row's factor. */
  lemma SlackInc(row: seq<int>, vals: seq<int>, i: nat)
    requires |row| >= 1 && |row| - 1 <= |vals| && i < |row| - 1
    ensures Slack(row, Inc(vals, i)) == Slack(row, vals) - row[i]
  {
    DotPoint(row, vals, i, row[i], vals[i] + 1, 0, |row| - 1);
    assert row[i := row[i]] == row;
  }

  /** The slack loop of `successors` for one row. */
  method SlackOf(row: seq<int>, vals: seq<int>, cols: nat) returns (v: int)
    requires |row| == cols >= 1 && cols - 1 <= |vals|
    ensures v == Slack(row, vals)
  {
    v := row[|row| - 1];
    var c := 0;
    while c < cols - 1
      invariant 0 <= c <= cols - 1
      invariant v == row[|row| - 1] - Dot(row, vals, 0, c)
    {
      DotLast(row, vals, 0, c + 1);
      v := v - row[c] * vals[c];
      c := c + 1;
    }
  }

  /** Incrementing variable i brings some row it appears in strictly closer
      to holding. */
  predicate Closer(m: Matrix, vals: seq<int>, i: nat)
    requires Rect(m) && Vars(m) <= |vals| && i < Vars(m)
  {
    exists r :: 0 <= r < |m| && m[r][i] != 0 && Abs(Slack(m[r], Inc(vals, i))) < Abs(Slack(m[r], vals))
  }

  /** No row with a positive factor for variable i has a positive total:
      the total may have to get worse before it gets better. */
  predicate AllNeg(m: Matrix, i: nat)
    requires Rect(m) && i < Vars(m)
  {
    forall r :: 0 <= r < |m| && m[r][i] > 0 ==> m[r][Vars(m)] <= 0
  }

  /** `successors` considers incrementing variable i. */
  predicate Admit(m: Matrix, vals: seq<int>, i: nat)
    requires Rect(m) && Vars(m) <= |vals| && i < Vars(m)
  {
    Closer(m, vals, i) || AllNeg(m, i)
  }

  /** The row loop of `successors` for variable i. */
  method RowScan(m: Matrix, vals: seq<int>, i: nat) returns (ok: bool, allneg: bool)
    requires Rect(m) && Vars(m) <= |vals| && i < Vars(m)
    ensures ok == Closer(m, vals, i) && allneg == AllNeg(m, i)
  {
    ok := false;
    allneg := true;
    for r := 0 to |m|
      invariant ok <==> exists k :: 0 <= k < r && m[k][i] != 0 &&
                          Abs(Slack(m[k], Inc(vals, i))) < Abs(Slack(m[k], vals))
      invariant allneg <==> forall k :: 0 <= k < r && m[k][i] > 0 ==> m[k][Vars(m)] <= 0
    {
      assert |m[r]| == Cols(m);
      if m[r][i] != 0 {
        var v := SlackOf(m[r], vals, Cols(m));
        var u := v - m[r][i];
        SlackInc(m[r], vals, i);
        if Abs(v) > Abs(u) {
          ok := true;
        }
        if m[r][i] > 0 && m[r][|m[r]| - 1] > 0 {
          allneg := false;
        }
      }
    }
  }

  /** `successors`: nothing once the values reach the worst total; otherwise
      each admitted free variable incremented, unless already seen. The
      free variables are visited in an unspecified order, as Go's map
      iteration is. */
  method Successors(m: Matrix, vars: set<nat>, vals: seq<int>, worst: int, seen: set<seq<int>>)
    returns (res: seq<seq<int>>)
    requires Rect(m) && Vars(m) <= |vals| && forall i :: i in vars ==> i < Vars(m)
    ensures Sum(vals) >= worst ==> res == []
    ensures Sum(vals) < worst ==> forall v :: v in res <==>
              exists i :: i in vars && Admit(m, vals, i) && v == Inc(vals, i) && v !in seen
  {
    res := [];
    var total := SumSlice(vals);
    if total >= worst {
      return;
    }
    var rest := vars;
    while rest != {}
      invariant rest <= vars
      invariant forall v :: v in res <==>
                  exists i :: i in vars - rest && Admit(m, vals, i) && v == Inc(vals, i) && v !in seen
      decreases |rest|
    {
      var i :| i in rest;
      rest := rest - {i};
      var ok, allneg := RowScan(m, vals, i);
      if !ok && !allneg {
        continue;
      }
      var x := Inc(vals, i);
      if x in seen {
        continue;
      }
      res := res + [x];
    }
  }

  // ---------------------------------------------------------------- the search

  /** The length of the value arrays, `[13]int`. */
  const Width: nat := 13

  /** The starting values: every variable zero. */
  function Zeros(): (z: seq<int>)
    ensures |z| == Width && Nonneg(z) && Sum(z) == 0
  {
    SumZeros(Width);
    seq(Width, _ => 0)
  }

  /** The entries from k on are zero. */
  predicate ZeroFrom(s: seq<int>, k: nat)
  {
    forall j :: k <= j < |s| ==> s[j] == 0
  }

  /** A substitution that succeeded and was not flagged. */
  predicate Clean(res: Result<Sub>)
  {
    res.Ok? && res.value.ok && res.value.rem == 0
  }

  /** Some starting values, zero past the variables, back-substitute
      cleanly to the total t. */
  ghost predicate Achieved(m: Matrix, t: int, fixed: bool)
    requires Rect(m) && Vars(m) <= Width
  {
    exists vals :: |vals| == Width && Nonneg(vals) && ZeroFrom(vals, Vars(m))
      && Clean(BackFrom(m, vals, 0, fixed)) && Sum(BackFrom(m, vals, 0, fixed).value.all) == t
  }

  /** Back substitution fails only by Go's index panic, and under the
      corrected reading never fails. */
  lemma {:induction false} BackOutcome(m: Matrix, vals: seq<int>, r: nat, fixed: bool)
    requires Rect(m) && r <= |m| && Vars(m) <= |vals|
    ensures BackFrom(m, vals, r, fixed).Err? ==> BackFrom(m, vals, r, fixed) == Err("index out of range")
    ensures fixed ==> BackFrom(m, vals, r, fixed).Ok?
    decreases |m| - r
  {
    if r < |m| {
      BackOutcome(m, vals, r + 1, fixed);
    }
  }

  lemma {:induction false} SumZeroTail(s: seq<int>, k: nat)
    requires k <= |s| && ZeroFrom(s, k)
    ensures Sum(s) == Sum(s[..k])
    decreases |s| - k
  {
    if k < |s| {
      SumZeroTail(s, k + 1);
      assert s[..k + 1][..k] == s[..k];
    } else {
      assert s[..k] == s;
    }
  }

  lemma {:induction false} EntryLeSum(s: seq<int>, k: nat)
    requires Nonneg(s) && k < |s|
    ensures s[k] <= Sum(s)
  {
    SumPoint(s, k, 0);
    assert Nonneg(s[k := 0]);
    NonnegSum(s[k := 0]);
  }

  lemma {:induction false} NonnegSum(s: seq<int>)
    requires Nonneg(s)
    ensures Sum(s) >= 0
  {
    if s != [] {
      assert Nonneg(s[..|s| - 1]);
      NonnegSum(s[..|s| - 1]);
    }
  }

  /** Under the corrected reading a clean result on the reduced matrix
      configures the machine with that many presses. */
  lemma AchievedAttainable(mc: Y2025Day10.Machine, m: Matrix, t: int)
    requires |mc.joltage| >= 1 && Rect(Initial(mc))
    requires Kept(Initial(mc), Initial(mc), m, 0) && Echelon(m, Diag(m)) && Vars(m) <= Width
    requires Achieved(m, t, true)
    ensures Attainable(mc, t)
  {
    var vals :| |vals| == Width && Nonneg(vals) && ZeroFrom(vals, Vars(m))
      && Clean(BackFrom(m, vals, 0, true)) && Sum(BackFrom(m, vals, 0, true).value.all) == t;
    var a := BackFrom(m, vals, 0, true).value.all;
    BackSound(m, vals);
    BackHolds(m, vals, 0);
    assert ZeroFrom(a, Vars(m));
    SumZeroTail(a, Vars(m));
    assert Covered(Initial(mc), t, false);
    CoveredAttainable(mc, t);
  }

  /** Under the corrected reading a clean result from zero on the reduced
      matrix is at most the sum of the joltages. */
  lemma InitialBounded(mc: Y2025Day10.Machine, m: Matrix)
    requires |mc.joltage| >= 1 && Rect(Initial(mc))
    requires Kept(Initial(mc), Initial(mc), m, 0) && Echelon(m, Diag(m)) && Vars(m) <= Width
    requires Clean(BackFrom(m, Zeros(), 0, true))
    ensures Sum(BackFrom(m, Zeros(), 0, true).value.all) <= Sum(mc.joltage)
  {
    var a := BackFrom(m, Zeros(), 0, true).value.all;
    BackSound(m, Zeros());
    BackHolds(m, Zeros(), 0);
    assert ZeroFrom(a, Vars(m));
    SumZeroTail(a, Vars(m));
    var t := Sum(a);
    assert Covered(Initial(mc), t, true);
    CoveredBounded(mc, t);
  }

  /** The sequences of n entries, each between 0 and b. */
  ghost function Box(n: nat, b: nat): set<seq<int>>
  {
    if n == 0 then {[]} else set s, v | s in Box(n - 1, b) && 0 <= v <= b :: s + [v]
  }

  lemma {:induction false} InBox(s: seq<int>, b: nat)
    requires forall k :: 0 <= k < |s| ==> 0 <= s[k] <= b
    ensures s in Box(|s|, b)
  {
    if s != [] {
      var s' := s[..|s| - 1];
      InBox(s', b);
      assert s == s' + [s[|s| - 1]];
    }
  }

  lemma CardLess<T>(a: set<T>, b: set<T>, x: T)
    requires a <= b && x in b && x !in a
    ensures |a| < |b|
  {
    assert b == a + (b - a);
    assert x in b - a;
  }

  /** Values the search may hold: non-negative, zero past the variables,
      totalling at most the bound. */
  predicate Good(m: Matrix, s: seq<int>, bound: nat)
    requires Rect(m)
  {
    |s| == Width && Nonneg(s) && ZeroFrom(s, Vars(m)) && Sum(s) <= bound
  }

  /** A successor of good values below the worst total is good and lies in
      the finite box the search stays within. */
  lemma SuccGood(m: Matrix, cur: seq<int>, i: nat, worst: int, bound: nat)
    requires Rect(m) && Good(m, cur, bound) && i < Vars(m) && Vars(m) <= Width
    requires Sum(cur) < worst <= bound
    ensures Good(m, Inc(cur, i), bound) && Inc(cur, i) in Box(Width, bound)
  {
    var f := Inc(cur, i);
    SumPoint(cur, i, cur[i] + 1);
    forall k | 0 <= k < |f| ensures 0 <= f[k] <= bound {
      EntryLeSum(f, k);
    }
    InBox(f, bound);
  }

  /** One successor in the loop of `machinePart2`: back-substitute it,
      lower the best total on a clean result, and keep it for the queue
      when both its total and its values' total stay below the bounds. */
  method Probe(m: Matrix, f: seq<int>, worst: int, best: int, fixed: bool) returns (r: Result<int>, keep: bool)
    requires Rect(m) && Vars(m) <= Width && |f| == Width && Nonneg(f) && ZeroFrom(f, Vars(m))
    ensures r.Err? ==> r == Err("index out of range") && !fixed && !keep
    ensures r.Ok? ==> r.value <= best && (r.value == best || Achieved(m, r.value, fixed))
    ensures keep ==> r.Ok? && Sum(f) < r.value
  {
    var res := BackSubstitute(m, f, fixed);
    BackOutcome(m, f, 0, fixed);
    if res.Err? {
      return Err(res.msg), false;
    }
    var sum := SumSlice(res.value.all);
    var b := best;
    if res.value.ok && res.value.rem == 0 {
      b := if best <= sum then best else sum;
    }
    var fsum := SumSlice(f);
    r := Ok(b);
    keep := sum < worst && fsum < b;
  }

  /** One turn of the loop of `machinePart2`: the successors of the values
      are marked seen and probed in order, and those worth expanding are
      returned for the queue. The seen set only grows, and it grows within
      the box unless nothing is returned. */
  method Expand(m: Matrix, vars: set<nat>, cur: seq<int>, worst: int, best: int, fixed: bool,
                seen: set<seq<int>>, ghost bound: nat)
    returns (r: Result<int>, seen': set<seq<int>>, added: seq<seq<int>>)
    requires Rect(m) && Vars(m) <= Width && forall i :: i in vars ==> i < Vars(m)
    requires Good(m, cur, bound) && worst <= bound
    ensures seen <= seen'
    ensures (seen' == seen && added == []) || |Box(Width, bound) - seen'| < |Box(Width, bound) - seen|
    ensures forall s :: s in added ==> Good(m, s, bound)
    ensures r.Ok? ==> r.value <= best && (r.value == best || Achieved(m, r.value, fixed))
    ensures r.Err? ==> r == Err("index out of range") && !fixed
  {
    seen' := seen;
    added := [];
    r := Ok(best);
    var succs := Successors(m, vars, cur, worst, seen);
    var j := 0;
    while j < |succs|
      invariant 0 <= j <= |succs| && seen <= seen'
      invariant j > 0 ==> succs[0] in seen' && succs[0] !in seen && succs[0] in Box(Width, bound)
      invariant j == 0 ==> seen' == seen && added == []
      invariant forall s :: s in added ==> Good(m, s, bound)
      invariant r.Ok? && r.value <= best && (r.value == best || Achieved(m, r.value, fixed))
    {
      var f := succs[j];
      assert f in succs;
      ghost var i :| i in vars && f == Inc(cur, i) && f !in seen;
      SuccGood(m, cur, i, worst, bound);
      seen' := seen' + {f};
      var probed, keep := Probe(m, f, worst, r.value, fixed);
      if probed.Err? {
        CardLess(Box(Width, bound) - seen', Box(Width, bound) - seen, succs[0]);
        return probed, seen', added;
      }
      r := probed;
      if keep {
        added := added + [f];
      }
      j := j + 1;
    }
    if |succs| > 0 {
      CardLess(Box(Width, bound) - seen', Box(Width, bound) - seen, succs[0]);
    }
  }

  lemma ZerosGood(m: Matrix, bound: nat)
    requires Rect(m)
    ensures Good(m, Zeros(), bound)
  {
    assert ZeroFrom(Zeros(), Vars(m));
  }

  /** The breadth-first loop of `machinePart2`, from all-zero values: the
      result is the starting best or lower, and unless it is the worst
      total some values back-substitute cleanly to it. */
  method Search(m: Matrix, vars: set<nat>, worst: int, best0: int, fixed: bool) returns (r: Result<int>)
    requires Rect(m) && Vars(m) <= Width && forall i :: i in vars ==> i < Vars(m)
    requires best0 == worst || Achieved(m, best0, fixed)
    ensures r.Ok? ==> r.value <= best0 && (r.value == worst || Achieved(m, r.value, fixed))
    ensures r.Err? ==> r == Err("index out of range")
    ensures fixed ==> r.Ok?
  {
    var best := best0;
    var seen: set<seq<int>> := {Zeros()};
    var q: seq<seq<int>> := [Zeros()];
    ghost var bound: nat := if worst > 0 then worst else 0;
    ghost var box := Box(Width, bound);
    ZerosGood(m, bound);
    while |q| != 0
      invariant forall s :: s in q ==> Good(m, s, bound)
      invariant best <= best0 && (best == worst || Achieved(m, best, fixed))
      decreases |box - seen|, |q|
    {
      var cur := q[0];
      assert cur in q;
      q := q[1..];
      assert forall s :: s in q ==> Good(m, s, bound);
      var res, seen', added := Expand(m, vars, cur, worst, best, fixed, seen, bound);
      if res.Err? {
        return res;
      }
      best := res.value;
      seen := seen';
      forall s | s in q + added ensures Good(m, s, bound) {
        assert s in q || s in added;
      }
      q := q + added;
    }
    r := Ok(best);
  }

  // ---------------------------------------------------------------- machinePart2 and part2

  /** `machinePart2`: the buttons sorted by bit count, the matrix built,
      its rows sorted, reduced, and searched from all-zero values. No
      joltages is Go's index panic in `reduce`, and more than 13 buttons
      its index panic in `backSubstitute`; without free variables the
      initial substitution must be clean. `fixed` selects the corrected
      test of `backSubstitute`. */
  method MachinePart2(x: Y2025Day10.Machine, fixed: bool) returns (r: Result<int>, ghost m: Matrix)
    ensures |x.joltage| == 0 || |x.buttons| > Width ==> r == Err("index out of range")
    ensures |x.joltage| >= 1 ==> Rect(Initial(x)) && Kept(Initial(x), Initial(x), m, 0) && Echelon(m, Diag(m))
    ensures r.Err? ==> (r == Err("index out of range") || (r == Err("no freevars") && |x.joltage| >= 1
                          && Vars(m) <= Width && FreeSet(m) == {} && !Clean(BackFrom(m, Zeros(), 0, fixed))))
    ensures r.Ok? ==> (|x.joltage| >= 1 && Rect(m) && Vars(m) <= Width
                         && (FreeSet(m) == {} ==> (BackFrom(m, Zeros(), 0, fixed).Ok?
                                                  && r == Ok(Sum(BackFrom(m, Zeros(), 0, fixed).value.all))))
                         && (r.value != Sum(x.joltage) || FreeSet(m) == {} ==> Achieved(m, r.value, fixed)))
    ensures fixed && r.Ok? ==> (r.value <= Sum(x.joltage)
                                  && (r.value < Sum(x.joltage) || FreeSet(m) == {} ==> Attainable(x, r.value)))
    ensures fixed && r.Err? && |x.joltage| >= 1 && |x.buttons| <= Width ==> r == Err("no freevars")
  {
    m := [];
    if |x.joltage| == 0 {
      return Err("index out of range"), m;
    }
    var buts := SortByOnes(x.buttons);
    var built := BuildMatrix(buts, x.joltage);
    assert Rows(built) by {
      forall i | 0 <= i < |built| ensures |built[i]| >= 1 {
      }
    }
    var sorted := SortRows(built);
    assert sorted == Initial(x);
    InitialRect(x);
    var reduced := Reduce(sorted);
    m := reduced;
    var vars := FreeVars(reduced);
    if |x.buttons| > Width {
      return Err("index out of range"), m;
    }
    var init := BackSubstitute(reduced, Zeros(), fixed);
    BackOutcome(m, Zeros(), 0, fixed);
    if init.Err? {
      return Err(init.msg), m;
    }
    assert ZeroFrom(Zeros(), Vars(m));
    var initsum := SumSlice(init.value.all);
    var clean := init.value.ok && init.value.rem == 0;
    if fixed && clean {
      InitialBounded(x, m);
    }
    if |vars| == 0 {
      if clean {
        if fixed {
          AchievedAttainable(x, m, initsum);
        }
        return Ok(initsum), m;
      }
      return Err("no freevars"), m;
    }
    var worst := SumSlice(x.joltage);
    var best := worst;
    if clean {
      best := initsum;
    }
    r := Search(reduced, vars, worst, best, fixed);
    if fixed && r.Ok? && r.value != worst {
      AchievedAttainable(x, m, r.value);
    }
  }

  /** Under the corrected reading the result is at most the sum of the
      joltages, and below it some press counts configure the machine. */
  ghost predicate Plausible(mc: Y2025Day10.Machine, t: int)
  {
    t <= Sum(mc.joltage) && (t < Sum(mc.joltage) ==> Attainable(mc, t))
  }

  /** The summing loop of `part2`, stopping at a machine's panic. */
  method SumPart2(machines: seq<Y2025Day10.Machine>, fixed: bool) returns (r: Result<int>)
    ensures r.Err? ==> r == Err("index out of range") || r == Err("no freevars")
    ensures fixed && r.Ok? ==> (exists ts :: |ts| == |machines| && r.value == Sum(ts)
                                  && forall k :: 0 <= k < |machines| ==> Plausible(machines[k], ts[k]))
  {
    var sum := 0;
    ghost var ts: seq<int> := [];
    for k := 0 to |machines|
      invariant |ts| == k && sum == Sum(ts)
      invariant fixed ==> forall j :: 0 <= j < k ==> Plausible(machines[j], ts[j])
    {
      var t, _ := MachinePart2(machines[k], fixed);
      if t.Err? {
        return t;
      }
      assert fixed ==> Plausible(machines[k], t.value);
      assert (ts + [t.value])[..k] == ts;
      ts := ts + [t.value];
      sum := sum + t.value;
    }
    r := Ok(sum);
  }

  /** `part2`: parse every machine, then sum their fewest presses. */
  method Part2(lines: seq<string>, fixed: bool) returns (r: Result<int>)
    ensures r.Err? ==> ((exists k :: 0 <= k < |lines| && Y2025Day10.MachineOf(lines[k]).Err?)
                          || r == Err("index out of range") || r == Err("no freevars"))
    ensures r.Ok? ==> forall k :: 0 <= k < |lines| ==> Y2025Day10.MachineOf(lines[k]).Ok?
    ensures fixed && r.Ok? ==> (exists ms, ts :: Y2025Day10.MachinesOf(lines, ms) && |ts| == |ms|
                                  && r.value == Sum(ts) && forall k :: 0 <= k < |ms| ==> Plausible(ms[k], ts[k]))
  {
    var parsed := Y2025Day10.ParseMachines(lines);
    if parsed.Err? {
      return Err(parsed.msg);
    }
    r := SumPart2(parsed.value, fixed);
  }

  /** The machine `[#] (0) {1,2}` (one button, raising counter 0, and
      targets 1 and 2) has the initial matrix that reduces to the one
      `AsWrittenAcceptsUnsolvable` substitutes cleanly. */
  lemma ExampleInitial()
    ensures Initial(Y2025Day10.Machine({0}, [{0}], [1, 2])) == [[0, 2], [1, 1]]
  {
    var mc := Y2025Day10.Machine({0}, [{0}], [1, 2]);
    assert SortByOnes(mc.buttons) == [{0}];
    var b := Built([{0}], [1, 2]);
    assert b[0] == [1, 1] && b[1] == [0, 2];
    assert b == [[1, 1], [0, 2]];
    assert [0, 2][..1] == [0] && [1, 1][..1] == [1] && [0][..0] == [] && [1][..0] == [];
    assert Weight([0, 2]) == 0 && Weight([1, 1]) == 1;
    assert SortRows([[1, 1]]) == [[1, 1]] by {
      assert [[1, 1]][..0] == [];
    }
    assert [[1, 1], [0, 2]][..1] == [[1, 1]];
    assert InsertRow([[1, 1]], [0, 2]) == [[0, 2], [1, 1]] by {
      assert RowLess([0, 2], [1, 1]);
      assert [[1, 1]][..0] == [];
    }
  }

  /** No press counts configure that machine: its only button never
      raises counter 1. */
  lemma ExampleUnattainable(t: int)
    ensures !Attainable(Y2025Day10.Machine({0}, [{0}], [1, 2]), t)
  {
    var mc := Y2025Day10.Machine({0}, [{0}], [1, 2]);
    forall y ensures !Reach(mc.buttons, mc.joltage, y) {
      if |y| == 1 {
        assert mc.buttons[1..] == [] && y[1..] == [];
        assert Counter(mc.buttons, y, 1) == 0;
      }
    }
  }
}
