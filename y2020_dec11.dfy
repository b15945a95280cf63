/** 2020 day 11: seats in a waiting area fill and empty until nothing
    changes.

    A grid holds floor ('.'), empty seats ('L') and occupied seats ('#').
    Each round every seat looks at the occupied seats around it: part 1
    counts the eight adjacent cells, part 2 the first seat seen in each of
    the eight directions. The two `Grid` classes of the source differ only
    in that count and in the tolerance of an occupied seat; here they are
    one class with a `Rule`. */
module Y2020Dec11 {
  import opened Common

  type Cells = seq<seq<char>>

  /** At least one row (the source reads `cells[0]`), all of one width. */
  predicate Shaped(g: Cells)
  {
    |g| > 0 && forall i :: 0 <= i < |g| ==> |g[i]| == |g[0]|
  }

  predicate InGrid(g: Cells, i: int, j: int)
    requires Shaped(g)
  {
    0 <= i < |g| && 0 <= j < |g[0]|
  }

  /** Floor, an empty seat or an occupied seat. */
  predicate IsCell(c: char)
  {
    c == 'L' || c == '#' || c == '.'
  }

  predicate ValidCells(g: Cells)
    requires Shaped(g)
  {
    forall i, j :: 0 <= i < |g| && 0 <= j < |g[0]| ==> IsCell(g[i][j])
  }

  // ---------------------------------------------------------------- part 1: adjacent seats

  /** Whether cell (i, j) holds `ch` and is not the centre (row, col). */
  function Hit(g: Cells, row: int, col: int, ch: char, i: int, j: int): nat
    requires Shaped(g) && InGrid(g, i, j)
  {
    if g[i][j] == ch && (i != row || j != col) then 1 else 0
  }

  /** Hits in row `i`, columns lo until hi. */
  function RowHits(g: Cells, row: int, col: int, ch: char, i: int, lo: int, hi: int): nat
    requires Shaped(g) && 0 <= i < |g| && 0 <= lo <= hi <= |g[0]|
    decreases hi - lo
  {
    if lo == hi then 0 else RowHits(g, row, col, ch, i, lo, hi - 1) + Hit(g, row, col, ch, i, hi - 1)
  }

  /** Hits in rows ilo until ihi, columns jlo until jhi. */
  function BlockHits(g: Cells, row: int, col: int, ch: char, ilo: int, ihi: int, jlo: int, jhi: int): nat
    requires Shaped(g) && 0 <= ilo <= ihi <= |g| && 0 <= jlo <= jhi <= |g[0]|
    decreases ihi - ilo
  {
    if ilo == ihi then 0
    else BlockHits(g, row, col, ch, ilo, ihi - 1, jlo, jhi) + RowHits(g, row, col, ch, ihi - 1, jlo, jhi)
  }

  function Low(x: int): int { if x - 1 < 0 then 0 else x - 1 }

  function High(x: int, n: int): int { if x + 2 > n then n else x + 2 }

  /** `countNeighbors`: the `ch` cells of the 3 by 3 block around
      (row, col), clipped to the grid, other than the centre. */
  function Neighbors(g: Cells, row: int, col: int, ch: char): nat
    requires Shaped(g) && InGrid(g, row, col)
  {
    BlockHits(g, row, col, ch, Low(row), High(row, |g|), Low(col), High(col, |g[0]|))
  }

  lemma {:induction false} RowHitsBound(g: Cells, row: int, col: int, ch: char, i: int, lo: int, hi: int)
    requires Shaped(g) && 0 <= i < |g| && 0 <= lo <= hi <= |g[0]|
    ensures RowHits(g, row, col, ch, i, lo, hi) <= hi - lo
    ensures i == row && lo <= col < hi ==> RowHits(g, row, col, ch, i, lo, hi) <= hi - lo - 1
    decreases hi - lo
  {
    if lo < hi {
      RowHitsBound(g, row, col, ch, i, lo, hi - 1);
    }
  }

  lemma {:induction false} BlockHitsBound(g: Cells, row: int, col: int, ch: char, ilo: int, ihi: int, jlo: int, jhi: int)
    requires Shaped(g) && 0 <= ilo <= ihi <= |g| && 0 <= jlo <= jhi <= |g[0]|
    ensures BlockHits(g, row, col, ch, ilo, ihi, jlo, jhi) <= (ihi - ilo) * (jhi - jlo)
    ensures ilo <= row < ihi && jlo <= col < jhi ==>
      BlockHits(g, row, col, ch, ilo, ihi, jlo, jhi) <= (ihi - ilo) * (jhi - jlo) - 1
    decreases ihi - ilo
  {
    if ilo < ihi {
      BlockHitsBound(g, row, col, ch, ilo, ihi - 1, jlo, jhi);
      RowHitsBound(g, row, col, ch, ihi - 1, jlo, jhi);
      assert (ihi - ilo) * (jhi - jlo) == (ihi - 1 - ilo) * (jhi - jlo) + (jhi - jlo);
    }
  }

  /** A seat has at most eight neighbours. */
  lemma NeighborsBound(g: Cells, row: int, col: int, ch: char)
    requires Shaped(g) && InGrid(g, row, col)
    ensures Neighbors(g, row, col, ch) <= 8
  {
    var a := High(row, |g|) - Low(row);
    var b := High(col, |g[0]|) - Low(col);
    BlockHitsBound(g, row, col, ch, Low(row), High(row, |g|), Low(col), High(col, |g[0]|));
    assert 1 <= a <= 3 && 1 <= b <= 3;
    assert a * b <= 9;
  }

  /** Cell (i, j) touches (row, col): a different cell at most one row and
      one column away. */
  predicate Adjacent(row: int, col: int, i: int, j: int)
  {
    (i != row || j != col) && row - 1 <= i <= row + 1 && col - 1 <= j <= col + 1
  }

  lemma {:induction false} RowHitsZero(g: Cells, row: int, col: int, ch: char, i: int, lo: int, hi: int)
    requires Shaped(g) && 0 <= i < |g| && 0 <= lo <= hi <= |g[0]|
    ensures RowHits(g, row, col, ch, i, lo, hi) == 0 <==>
      forall j :: lo <= j < hi ==> Hit(g, row, col, ch, i, j) == 0
    decreases hi - lo
  {
    if lo < hi {
      RowHitsZero(g, row, col, ch, i, lo, hi - 1);
    }
  }

  lemma {:induction false} BlockHitsZero(g: Cells, row: int, col: int, ch: char, ilo: int, ihi: int, jlo: int, jhi: int)
    requires Shaped(g) && 0 <= ilo <= ihi <= |g| && 0 <= jlo <= jhi <= |g[0]|
    ensures BlockHits(g, row, col, ch, ilo, ihi, jlo, jhi) == 0 <==>
      forall i, j :: ilo <= i < ihi && jlo <= j < jhi ==> Hit(g, row, col, ch, i, j) == 0
    decreases ihi - ilo
  {
    if ilo < ihi {
      BlockHitsZero(g, row, col, ch, ilo, ihi - 1, jlo, jhi);
      RowHitsZero(g, row, col, ch, ihi - 1, jlo, jhi);
    }
  }

  /** No neighbour holds `ch` exactly when no adjacent cell of the grid
      does. */
  lemma NeighborsZero(g: Cells, row: int, col: int, ch: char)
    requires Shaped(g) && InGrid(g, row, col)
    ensures Neighbors(g, row, col, ch) == 0 <==>
      forall i, j :: InGrid(g, i, j) && Adjacent(row, col, i, j) ==> g[i][j] != ch
  {
    var ilo, ihi, jlo, jhi := Low(row), High(row, |g|), Low(col), High(col, |g[0]|);
    BlockHitsZero(g, row, col, ch, ilo, ihi, jlo, jhi);
    if Neighbors(g, row, col, ch) == 0 {
      forall i, j | InGrid(g, i, j) && Adjacent(row, col, i, j)
        ensures g[i][j] != ch
      {
        assert Hit(g, row, col, ch, i, j) == 0;
      }
    } else {
      var i, j :| ilo <= i < ihi && jlo <= j < jhi && Hit(g, row, col, ch, i, j) != 0;
      assert InGrid(g, i, j) && Adjacent(row, col, i, j) && g[i][j] == ch;
    }
  }

  // ---------------------------------------------------------------- part 2: seats in sight

  predicate Step(d: int) { -1 <= d <= 1 }

  /** How far (i, j) can still move along (dr, dc) before leaving the grid. */
  function Room(g: Cells, i: int, j: int, dr: int, dc: int): int
    requires Shaped(g)
  {
    (if dr == 1 then |g| - i else if dr == -1 then i + 1 else 0) +
    (if dc == 1 then |g[0]| - j else if dc == -1 then j + 1 else 0)
  }

  /** The walk of `countVisible` from (i, j) along (dr, dc): true when the
      first cell that is not floor holds `ch`. */
  function Sees(g: Cells, i: int, j: int, dr: int, dc: int, ch: char): bool
    requires Shaped(g) && Step(dr) && Step(dc) && (dr != 0 || dc != 0)
    decreases Room(g, i, j, dr, dc)
  {
    if !InGrid(g, i, j) then false
    else if g[i][j] == ch then true
    else if g[i][j] != '.' then false
    else Sees(g, i + dr, j + dc, dr, dc, ch)
  }

  /** The cell k steps from x along d. */
  function Along(x: int, d: int, k: nat): int
  {
    if d == 1 then x + k else if d == -1 then x - k else x
  }

  /** The k-th cell of the ray from (i, j) along (dr, dc) holds `ch`, and
      the cells before it are floor. */
  ghost predicate SightLine(g: Cells, i: int, j: int, dr: int, dc: int, ch: char, k: nat)
    requires Shaped(g)
  {
    InGrid(g, Along(i, dr, k), Along(j, dc, k)) && g[Along(i, dr, k)][Along(j, dc, k)] == ch &&
    forall m: nat :: m < k ==> Floor(g, Along(i, dr, m), Along(j, dc, m))
  }

  predicate Floor(g: Cells, i: int, j: int)
    requires Shaped(g)
  {
    InGrid(g, i, j) && g[i][j] == '.'
  }

  /** The walk sees `ch` exactly when some cell of the ray holds it and
      every cell before it on the ray is floor. */
  lemma {:induction false} SeesMeaning(g: Cells, i: int, j: int, dr: int, dc: int, ch: char)
    requires Shaped(g) && Step(dr) && Step(dc) && (dr != 0 || dc != 0) && ch != '.'
    ensures Sees(g, i, j, dr, dc, ch) <==> exists k: nat :: SightLine(g, i, j, dr, dc, ch, k)
    decreases Room(g, i, j, dr, dc)
  {
    assert Along(i, dr, 0) == i && Along(j, dc, 0) == j;
    if Floor(g, i, j) {
      var i1, j1 := i + dr, j + dc;
      SeesMeaning(g, i1, j1, dr, dc, ch);
      if Sees(g, i, j, dr, dc, ch) {
        var k: nat :| SightLine(g, i1, j1, dr, dc, ch, k);
        RayShift(g, i, j, dr, dc, ch, k);
      }
      if exists k: nat :: SightLine(g, i, j, dr, dc, ch, k) {
        var k: nat :| SightLine(g, i, j, dr, dc, ch, k);
        assert k != 0;
        RayShift(g, i, j, dr, dc, ch, k - 1);
      }
    } else if InGrid(g, i, j) && g[i][j] == ch {
      assert SightLine(g, i, j, dr, dc, ch, 0);
    } else {
      forall k: nat
        ensures !SightLine(g, i, j, dr, dc, ch, k)
      {
        if k != 0 {
          assert !Floor(g, Along(i, dr, 0), Along(j, dc, 0));
        }
      }
    }
  }

  /** A ray from a floor cell is the ray from the next cell, one step
      longer. */
  lemma RayShift(g: Cells, i: int, j: int, dr: int, dc: int, ch: char, k: nat)
    requires Shaped(g) && Step(dr) && Step(dc) && Floor(g, i, j)
    ensures SightLine(g, i, j, dr, dc, ch, k + 1) <==> SightLine(g, i + dr, j + dc, dr, dc, ch, k)
  {
    var i1, j1 := i + dr, j + dc;
    ShiftAlong(i, dr, k);
    ShiftAlong(j, dc, k);
    assert Along(i, dr, 0) == i && Along(j, dc, 0) == j;
    if SightLine(g, i1, j1, dr, dc, ch, k) {
      forall m: nat | m < k + 1
        ensures Floor(g, Along(i, dr, m), Along(j, dc, m))
      {
        if m > 0 {
          ShiftAlong(i, dr, m - 1);
          ShiftAlong(j, dc, m - 1);
        }
      }
    }
    if SightLine(g, i, j, dr, dc, ch, k + 1) {
      forall m: nat | m < k
        ensures Floor(g, Along(i1, dr, m), Along(j1, dc, m))
      {
        ShiftAlong(i, dr, m);
        ShiftAlong(j, dc, m);
      }
    }
  }

  lemma ShiftAlong(x: int, d: int, k: nat)
    requires Step(d)
    ensures Along(x + d, d, k) == Along(x, d, k + 1)
  {
  }

  /** The eight directions in the order of the source's two loops. */
  const Directions8: seq<(int, int)> := [(-1, -1), (-1, 0), (-1, 1), (0, -1), (0, 1), (1, -1), (1, 0), (1, 1)]

  /** Seats seen over the first n of the eight directions. */
  function SeenOver(g: Cells, row: int, col: int, ch: char, n: nat): nat
    requires Shaped(g) && n <= 8
  {
    if n == 0 then 0
    else
      var (dr, dc) := Directions8[n - 1];
      SeenOver(g, row, col, ch, n - 1) + (if Sees(g, row + dr, col + dc, dr, dc, ch) then 1 else 0)
  }

  /** `countVisible`: one for each direction whose first seat holds `ch`. */
  function Visible(g: Cells, row: int, col: int, ch: char): nat
    requires Shaped(g)
  {
    SeenOver(g, row, col, ch, 8)
  }

  lemma {:induction false} SeenOverBound(g: Cells, row: int, col: int, ch: char, n: nat)
    requires Shaped(g) && n <= 8
    ensures SeenOver(g, row, col, ch, n) <= n
  {
    if n > 0 {
      SeenOverBound(g, row, col, ch, n - 1);
    }
  }

  /** At most one seat counts per direction, so at most eight. */
  lemma VisibleBound(g: Cells, row: int, col: int, ch: char)
    requires Shaped(g)
    ensures Visible(g, row, col, ch) <= 8
  {
    SeenOverBound(g, row, col, ch, 8);
  }

  // ---------------------------------------------------------------- one round

  datatype Rule = Adjacency | Sight

  /** Occupied seats that make an occupied seat empty. */
  function Tolerance(rule: Rule): int
  {
    match rule
    case Adjacency => 4
    case Sight => 5
  }

  function Occupants(g: Cells, i: int, j: int, rule: Rule): nat
    requires Shaped(g) && InGrid(g, i, j)
  {
    match rule
    case Adjacency => Neighbors(g, i, j, '#')
    case Sight => Visible(g, i, j, '#')
  }

  /** The new content of cell (i, j); a cell that is not a seat or floor is
      left as it is, since the round fails on it. */
  function NewCell(g: Cells, i: int, j: int, rule: Rule): char
    requires Shaped(g) && InGrid(g, i, j)
  {
    if g[i][j] == 'L' then (if Occupants(g, i, j, rule) == 0 then '#' else 'L')
    else if g[i][j] == '#' then (if Occupants(g, i, j, rule) >= Tolerance(rule) then 'L' else '#')
    else g[i][j]
  }

  function Next(g: Cells, rule: Rule): (r: Cells)
    requires Shaped(g)
    ensures |r| == |g| && forall i :: 0 <= i < |r| ==> |r[i]| == |g[0]|
  {
    seq(|g|, i requires 0 <= i < |g| => seq(|g[0]|, j requires 0 <= j < |g[0]| => NewCell(g, i, j, rule)))
  }

  /** A round keeps the shape and the floor and leaves only seats and
      floor; a seat is empty or occupied as the rule says. */
  lemma NextCells(g: Cells, rule: Rule)
    requires Shaped(g) && ValidCells(g)
    ensures Shaped(Next(g, rule)) && ValidCells(Next(g, rule))
    ensures forall i, j :: InGrid(g, i, j) ==> (g[i][j] == '.' <==> Next(g, rule)[i][j] == '.')
    ensures forall i, j :: InGrid(g, i, j) && g[i][j] == 'L' ==>
      (Next(g, rule)[i][j] == '#' <==> Occupants(g, i, j, rule) == 0)
    ensures forall i, j :: InGrid(g, i, j) && g[i][j] == '#' ==>
      (Next(g, rule)[i][j] == 'L' <==> Occupants(g, i, j, rule) >= Tolerance(rule))
  {
  }

  /** In part 1 an empty seat fills iff no adjacent cell is occupied. */
  lemma FillsWhenAlone(g: Cells, i: int, j: int)
    requires Shaped(g) && InGrid(g, i, j) && g[i][j] == 'L'
    ensures Next(g, Adjacency)[i][j] == '#' <==>
      forall a, b :: InGrid(g, a, b) && Adjacent(i, j, a, b) ==> g[a][b] != '#'
  {
    NeighborsZero(g, i, j, '#');
  }

  // ---------------------------------------------------------------- settling

  /** Rounds until a round changes nothing, at most `bound` of them. */
  function Settle(g: Cells, rule: Rule, bound: nat): (r: Result<Cells>)
    requires Shaped(g)
    ensures r.Ok? ==> Shaped(r.value) && Next(r.value, rule) == r.value
    decreases bound
  {
    if Next(g, rule) == g then Ok(g)
    else if bound == 0 then Err("the seats do not settle within the bound")
    else Settle(Next(g, rule), rule, bound - 1)
  }

  /** The grid after k rounds. */
  function Rounds(g: Cells, rule: Rule, k: nat): (r: Cells)
    requires Shaped(g)
    ensures Shaped(r)
    decreases k
  {
    if k == 0 then g else Rounds(Next(g, rule), rule, k - 1)
  }

  lemma SettleStep(g: Cells, rule: Rule, bound: nat)
    requires Shaped(g) && Next(g, rule) != g && bound > 0
    ensures Settle(g, rule, bound) == Settle(Next(g, rule), rule, bound - 1)
  {
  }

  /** s is the grid after k rounds, and no earlier grid is a fixpoint. */
  ghost predicate FirstFixpoint(g: Cells, rule: Rule, k: nat, s: Cells)
    requires Shaped(g)
  {
    s == Rounds(g, rule, k) && forall m: nat :: m < k ==> Next(Rounds(g, rule, m), rule) != Rounds(g, rule, m)
  }

  /** Settling stops at the first round that changes nothing: the result is
      the grid after some k <= bound rounds with no earlier fixpoint, and
      failure means none of the first bound + 1 grids is one. */
  lemma {:induction false} SettleIsRounds(g: Cells, rule: Rule, bound: nat)
    requires Shaped(g)
    ensures Settle(g, rule, bound).Ok? ==>
      exists k: nat :: k <= bound && FirstFixpoint(g, rule, k, Settle(g, rule, bound).value)
    ensures Settle(g, rule, bound).Err? ==>
      forall m: nat :: m <= bound ==> Next(Rounds(g, rule, m), rule) != Rounds(g, rule, m)
    decreases bound
  {
    if Next(g, rule) == g {
      assert FirstFixpoint(g, rule, 0, g);
    } else if bound > 0 {
      var g1 := Next(g, rule);
      SettleIsRounds(g1, rule, bound - 1);
      assert forall m: nat :: 0 < m ==> Rounds(g, rule, m) == Rounds(g1, rule, m - 1);
      if Settle(g1, rule, bound - 1).Ok? {
        var k: nat :| k <= bound - 1 && FirstFixpoint(g1, rule, k, Settle(g1, rule, bound - 1).value);
        forall m: nat | m < k + 1
          ensures Next(Rounds(g, rule, m), rule) != Rounds(g, rule, m)
        {
          if m > 0 {
            assert Rounds(g, rule, m) == Rounds(g1, rule, m - 1);
          }
        }
        assert FirstFixpoint(g, rule, k + 1, Settle(g, rule, bound).value);
      } else {
        forall m: nat | m <= bound
          ensures Next(Rounds(g, rule, m), rule) != Rounds(g, rule, m)
        {
          if m > 0 {
            assert Rounds(g, rule, m) == Rounds(g1, rule, m - 1);
          }
        }
      }
    }
  }

  /** In a settled grid every empty seat has an occupant around it and
      every occupied seat fewer than the tolerance. */
  lemma SettledMeaning(g: Cells, rule: Rule)
    requires Shaped(g) && Next(g, rule) == g
    ensures forall i, j :: InGrid(g, i, j) && g[i][j] == 'L' ==> Occupants(g, i, j, rule) > 0
    ensures forall i, j :: InGrid(g, i, j) && g[i][j] == '#' ==> Occupants(g, i, j, rule) < Tolerance(rule)
  {
    forall i, j | InGrid(g, i, j)
      ensures g[i][j] == Next(g, rule)[i][j]
    {
    }
  }

  predicate IsOccupied(c: char) { c == '#' }

  /** The occupied seats of the grid, row by row. */
  function Occupied(g: Cells): nat
  {
    if g == [] then 0 else Occupied(g[..|g| - 1]) + CountWhere(g[|g| - 1], IsOccupied)
  }

  /** No seat is occupied exactly when the count is zero. */
  lemma {:induction false} OccupiedZero(g: Cells)
    ensures Occupied(g) == 0 <==> forall i, j :: 0 <= i < |g| && 0 <= j < |g[i]| ==> g[i][j] != '#'
  {
    if g != [] {
      var init, last := g[..|g| - 1], g[|g| - 1];
      OccupiedZero(init);
      CountWhereIsIndices(last, IsOccupied);
      assert forall i :: 0 <= i < |init| ==> init[i] == g[i];
      if CountWhere(last, IsOccupied) != 0 {
        var j :| j in IndicesWhere(last, IsOccupied);
        assert g[|g| - 1][j] == '#';
      } else if Occupied(init) != 0 {
        var i, j :| 0 <= i < |init| && 0 <= j < |init[i]| && init[i][j] == '#';
        assert g[i][j] == '#';
      } else {
        forall i, j | 0 <= i < |g| && 0 <= j < |g[i]|
          ensures g[i][j] != '#'
        {
          if i == |g| - 1 {
            assert j !in IndicesWhere(last, IsOccupied);
          }
        }
      }
    }
  }

  /** Shape of the input lines: one row per line, all of one width. */
  predicate Rectangular(lines: seq<string>)
  {
    forall i :: 0 <= i < |lines| ==> |lines[i]| == |lines[0]|
  }

  /** The count after the seats settle; no lines is the source's failing
      `cells[0]`, another character a failing round. */
  function Answer(lines: seq<string>, rule: Rule, bound: nat): Result<int>
    requires Rectangular(lines)
  {
    if lines == [] then Err("ArrayIndexOutOfBoundsException")
    else if !ValidCells(lines) then Err("Invalid character in cells")
    else
      match Settle(lines, rule, bound)
      case Ok(s) => Ok(Occupied(s))
      case Err(m) => Err(m)
  }
  // ---------------------------------------------------------------- the grid object

  /** Both `Grid` classes: a grid of cells read by the counting methods and
      never written once built. */
  class Grid {
    const cells: array2<char>
    const rule: Rule

    ghost predicate Valid()
      reads this
    {
      cells.Length0 > 0
    }

    /** The cells as rows. */
    function Contents(): (r: Cells)
      reads this, cells
      ensures |r| == cells.Length0
      ensures forall i :: 0 <= i < |r| ==> |r[i]| == cells.Length1
      ensures forall i, j :: 0 <= i < cells.Length0 && 0 <= j < cells.Length1 ==> r[i][j] == cells[i, j]
    {
      seq(cells.Length0, i requires 0 <= i < cells.Length0 reads cells =>
        seq(cells.Length1, j requires 0 <= j < cells.Length1 reads cells => cells[i, j]))
    }

    /** The source reads `cells[0]`, so a grid has at least one row. */
    constructor(cells: array2<char>, rule: Rule)
      requires cells.Length0 > 0
      ensures Valid() && this.cells == cells && this.rule == rule
    {
      this.cells := cells;
      this.rule := rule;
    }

    /** `countNeighbors`: the loop over the clipped 3 by 3 block. */
    method CountNeighbors(row: int, col: int, c: char) returns (matches: int)
      requires Valid() && InGrid(Contents(), row, col)
      ensures matches == Neighbors(Contents(), row, col, c)
    {
      ghost var g := Contents();
      var ilo, ihi := Low(row), High(row, cells.Length0);
      var jlo, jhi := Low(col), High(col, cells.Length1);
      matches := 0;
      var i := ilo;
      while i < ihi
        invariant ilo <= i <= ihi
        invariant matches == BlockHits(g, row, col, c, ilo, i, jlo, jhi)
      {
        var j := jlo;
        while j < jhi
          invariant jlo <= j <= jhi
          invariant matches == BlockHits(g, row, col, c, ilo, i, jlo, jhi) + RowHits(g, row, col, c, i, jlo, j)
        {
          if cells[i, j] == c && (i != row || j != col) {
            matches := matches + 1;
          }
          j := j + 1;
        }
        i := i + 1;
      }
    }

    /** `countVisible`: a walk from (row, col) in each of the eight
        directions, taken in the order of `Directions8`. */
    method CountVisible(row: int, col: int, c: char) returns (matches: int)
      requires Valid()
      ensures matches == Visible(Contents(), row, col, c)
    {
      ghost var g := Contents();
      matches := 0;
      var dr := -1;
      while dr <= 1
        invariant -1 <= dr <= 2
        invariant matches == SeenOver(g, row, col, c, Done(dr, -1))
      {
        var dc := -1;
        while dc <= 1
          invariant -1 <= dc <= 2
          invariant matches == SeenOver(g, row, col, c, Done(dr, dc))
        {
          if dr != 0 || dc != 0 {
            var seen := Look(row + dr, col + dc, dr, dc, c);
            if seen {
              matches := matches + 1;
            }
            SeenOverStep(g, row, col, c, dr, dc);
          }
          dc := dc + 1;
        }
        dr := dr + 1;
      }
    }

    /** The `while` of `countVisible`: walk from (i, j) along (dr, dc) over
        floor until a cell holds `c`, another seat is met or the walk
        leaves the grid. */
    method Look(i0: int, j0: int, dr: int, dc: int, c: char) returns (seen: bool)
      requires Valid() && Step(dr) && Step(dc) && (dr != 0 || dc != 0)
      ensures seen == Sees(Contents(), i0, j0, dr, dc, c)
    {
      ghost var g := Contents();
      var i, j := i0, j0;
      seen := false;
      while 0 <= i < cells.Length0 && 0 <= j < cells.Length1
        invariant Sees(g, i, j, dr, dc, c) == Sees(g, i0, j0, dr, dc, c)
        decreases Room(g, i, j, dr, dc)
      {
        assert cells[i, j] == g[i][j];
        if cells[i, j] == c {
          seen := true;
          break;
        } else if cells[i, j] != '.' {
          break;
        }
        SeesFloor(g, i, j, dr, dc, c);
        i := i + dr;
        j := j + dc;
      }
    }

    method CountOccupants(row: int, col: int) returns (n: int)
      requires Valid() && InGrid(Contents(), row, col)
      ensures n == Occupants(Contents(), row, col, rule)
    {
      match rule
      case Adjacency =>
        n := CountNeighbors(row, col, '#');
      case Sight =>
        n := CountVisible(row, col, '#');
    }

    /** The `when` of `evolve` for one cell: nothing for a character that
        is not a seat or floor. */
    method NextCell(i: int, j: int) returns (cell: Option<char>)
      requires Valid() && InGrid(Contents(), i, j)
      ensures cell.Some? <==> IsCell(Contents()[i][j])
      ensures cell.Some? ==> cell.value == NewCell(Contents(), i, j, rule)
    {
      if cells[i, j] == 'L' {
        var n := CountOccupants(i, j);
        cell := Some(if n == 0 then '#' else 'L');
      } else if cells[i, j] == '#' {
        var n := CountOccupants(i, j);
        cell := Some(if n >= Tolerance(rule) then 'L' else '#');
      } else if cells[i, j] == '.' {
        cell := Some('.');
      } else {
        cell := None;
      }
    }

    /** The inner loop of `evolve`: row i of the new cells and the number of
        its cells that change, or failure at a cell that is not a seat or
        floor. */
    method FillRow(i: int, newCells: array2<char>) returns (ok: bool, changes: int)
      requires Valid() && 0 <= i < cells.Length0
      requires newCells != cells && newCells.Length0 == cells.Length0 && newCells.Length1 == cells.Length1
      modifies newCells
      ensures ok <==> forall b :: 0 <= b < cells.Length1 ==> IsCell(Contents()[i][b])
      ensures ok ==> forall b :: 0 <= b < cells.Length1 ==> newCells[i, b] == Next(Contents(), rule)[i][b]
      ensures ok ==> changes >= 0 && (changes == 0 <==> forall b :: 0 <= b < cells.Length1 ==> newCells[i, b] == Contents()[i][b])
      ensures forall a, b :: 0 <= a < cells.Length0 && 0 <= b < cells.Length1 && a != i ==> newCells[a, b] == old(newCells[a, b])
    {
      ghost var g := Contents();
      ghost var next := Next(g, rule);
      NextAt(g, rule);
      changes := 0;
      for j := 0 to cells.Length1
        invariant forall b :: 0 <= b < j ==> newCells[i, b] == next[i][b] && IsCell(g[i][b])
        invariant changes >= 0 && (changes == 0 <==> forall b :: 0 <= b < j ==> newCells[i, b] == g[i][b])
        invariant forall a, b :: 0 <= a < cells.Length0 && 0 <= b < cells.Length1 && a != i ==> newCells[a, b] == old(newCells[a, b])
      {
        var cell := NextCell(i, j);
        if cell.None? {
          return false, changes;
        }
        assert cell.value == next[i][j] && cells[i, j] == g[i][j];
        newCells[i, j] := cell.value;
        if cells[i, j] != newCells[i, j] {
          changes := changes + 1;
        }
      }
      ok := true;
    }

    /** `evolve`: one round into a new array. A grid that does not change
        is returned itself; a cell that is not a seat or floor fails. */
    method Evolve() returns (r: Result<Grid>)
      requires Valid()
      ensures r.Ok? <==> ValidCells(Contents())
      ensures r.Err? ==> r.msg == "Invalid character in cells"
      ensures r.Ok? ==> r.value.Valid() && r.value.rule == rule && r.value.Contents() == Next(Contents(), rule)
      ensures r.Ok? ==> (r.value == this <==> Next(Contents(), rule) == Contents())
      ensures r.Ok? && r.value != this ==> fresh(r.value) && fresh(r.value.cells)
    {
      ghost var g := Contents();
      ghost var next := Next(g, rule);
      var height, width := cells.Length0, cells.Length1;
      var newCells := new char[height, width];
      var changes := 0;
      for i := 0 to height
        invariant forall a, b :: 0 <= a < i && 0 <= b < width ==> newCells[a, b] == next[a][b] && IsCell(g[a][b])
        invariant changes >= 0 && (changes == 0 <==> forall a, b :: 0 <= a < i && 0 <= b < width ==> newCells[a, b] == g[a][b])
      {
        var ok, rowChanges := FillRow(i, newCells);
        if !ok {
          return Err("Invalid character in cells");
        }
        changes := changes + rowChanges;
      }
      if changes == 0 {
        SameContents(next, g);
        r := Ok(this);
      } else {
        var grid := new Grid(newCells, rule);
        SameContents(grid.Contents(), next);
        r := Ok(grid);
      }
    }
  }

  /** `toCharArrays` and the `Grid` constructor: no lines fail on
      `cells[0]`. */
  method FromLines(lines: seq<string>, rule: Rule) returns (r: Result<Grid>)
    requires Rectangular(lines)
    ensures lines == [] ==> r == Err("ArrayIndexOutOfBoundsException")
    ensures lines != [] ==> r.Ok? && r.value.Valid() && r.value.rule == rule && r.value.Contents() == lines
    ensures r.Ok? ==> fresh(r.value) && fresh(r.value.cells)
  {
    if |lines| == 0 {
      return Err("ArrayIndexOutOfBoundsException");
    }
    var height, width := |lines|, |lines[0]|;
    var cells := new char[height, width]((i, j) requires 0 <= i < height && 0 <= j < width => lines[i][j]);
    var grid := new Grid(cells, rule);
    SameContents(grid.Contents(), lines);
    r := Ok(grid);
  }

  /** `solve` of either part: evolve until a round returns the grid itself,
      then count the occupied seats. */
  method Solve(lines: seq<string>, rule: Rule, bound: nat) returns (r: Result<int>)
    requires Rectangular(lines)
    ensures r == Answer(lines, rule, bound)
  {
    var start := FromLines(lines, rule);
    if start.Err? {
      return Err(start.msg);
    }
    var grid := start.value;
    var left: nat := bound;
    ghost var model := lines;
    while true
      invariant grid.Valid() && grid.rule == rule && grid.Contents() == model
      invariant Progress(lines, rule, bound, model, left)
      decreases left
    {
      var next := grid.Evolve();
      assert grid.Contents() == model;
      if next.Err? {
        return Err(next.msg);
      }
      if next.value == grid {
        return Ok(Occupied(grid.Contents()));
      }
      if left == 0 {
        return Err("the seats do not settle within the bound");
      }
      ProgressStep(lines, rule, bound, model, left);
      grid, model := next.value, Next(model, rule);
      left := left - 1;
    }
  }

  /** The loop of `solve` after bound - left rounds have changed the grid
      from `lines` to `model`. */
  ghost predicate Progress(lines: seq<string>, rule: Rule, bound: nat, model: Cells, left: nat)
  {
    Shaped(lines) && Shaped(model) && left <= bound &&
    (left == bound ==> model == lines) &&
    (left < bound ==> ValidCells(lines) && ValidCells(model)) &&
    (ValidCells(lines) ==> Settle(lines, rule, bound) == Settle(model, rule, left))
  }

  lemma ProgressStep(lines: seq<string>, rule: Rule, bound: nat, model: Cells, left: nat)
    requires Progress(lines, rule, bound, model, left) && ValidCells(model)
    requires Next(model, rule) != model && left > 0
    ensures Progress(lines, rule, bound, Next(model, rule), left - 1)
  {
    NextCells(model, rule);
  }

  /** Cell (a, b) comes before (i, j) in row-major order. */
  predicate Before(i: int, j: int, a: int, b: int)
  {
    a < i || (a == i && b < j)
  }

  /** The number of directions before (dr, dc) in the source's loop order. */
  function Done(dr: int, dc: int): int
  {
    var p := 3 * (dr + 1) + (dc + 1);
    if p > 4 then p - 1 else p
  }

  lemma DoneStep(dr: int, dc: int)
    requires Step(dr) && Step(dc) && (dr != 0 || dc != 0)
    ensures 0 <= Done(dr, dc) < 8 && Done(dr, dc + 1) == Done(dr, dc) + 1
    ensures Directions8[Done(dr, dc)] == (dr, dc)
  {
  }

  lemma SeesFloor(g: Cells, i: int, j: int, dr: int, dc: int, ch: char)
    requires Shaped(g) && Step(dr) && Step(dc) && (dr != 0 || dc != 0)
    requires InGrid(g, i, j) && g[i][j] == '.' && ch != '.'
    ensures Sees(g, i, j, dr, dc, ch) == Sees(g, i + dr, j + dc, dr, dc, ch)
  {
  }

  lemma SeenOverStep(g: Cells, row: int, col: int, ch: char, dr: int, dc: int)
    requires Shaped(g) && Step(dr) && Step(dc) && (dr != 0 || dc != 0)
    ensures 0 <= Done(dr, dc) < 8
    ensures SeenOver(g, row, col, ch, Done(dr, dc + 1)) ==
      SeenOver(g, row, col, ch, Done(dr, dc)) + if Sees(g, row + dr, col + dc, dr, dc, ch) then 1 else 0
  {
    DoneStep(dr, dc);
  }

  lemma NextAt(g: Cells, rule: Rule)
    requires Shaped(g)
    ensures forall i, j :: InGrid(g, i, j) ==> Next(g, rule)[i][j] == NewCell(g, i, j, rule)
  {
  }

  lemma SameContents(a: Cells, b: Cells)
    requires |a| == |b| && forall i :: 0 <= i < |a| ==> |a[i]| == |b[i]|
    requires forall i, j :: 0 <= i < |a| && 0 <= j < |a[i]| ==> a[i][j] == b[i][j]
    ensures a == b
  {
    forall i | 0 <= i < |a|
      ensures a[i] == b[i]
    {
    }
  }
}
