/** `TileGrid.toStitchedTile`: the picture a filled grid shows once every
    tile loses its border, with the exceptions the code runs into when the
    grid is not ready for it. */
module Y2020Dec20Stitch {
  import opened Common
  import opened Y2020Dec20
  import opened Y2020Dec20Grid
  import Modular

  /** Pixels 1 .. s-2 of row `r` of one cell: `cells[..]!!.grid[r].subList(1, s - 1)`. */
  function Inner(cell: Option<Tile>, r: nat, s: nat): Result<seq<bool>>
    requires s >= 2
  {
    match cell
    case None => Err("NullPointerException")
    case Some(t) =>
      if r < |t.grid| && s - 1 <= |t.grid[r]| then Ok(t.grid[r][1..s - 1])
      else Err("IndexOutOfBoundsException")
  }

  /** One stitched row: row `r` of every cell of a grid row, left to right. */
  function Line(row: seq<Option<Tile>>, r: nat, s: nat): Result<seq<bool>>
    requires s >= 2
    decreases |row|
  {
    if row == [] then Ok([])
    else
      match Inner(row[0], r, s)
      case Err(m) => Err(m)
      case Ok(p) =>
        match Line(row[1..], r, s)
        case Err(m) => Err(m)
        case Ok(q) => Ok(p + q)
  }

  /** The stitched rows of one grid row: tile rows r .. s-2. */
  function Lines(row: seq<Option<Tile>>, r: nat, s: nat): Result<seq<seq<bool>>>
    requires r >= 1
    decreases s - r
  {
    if r + 1 >= s then Ok([])
    else
      match Line(row, r, s)
      case Err(m) => Err(m)
      case Ok(x) =>
        match Lines(row, r + 1, s)
        case Err(m) => Err(m)
        case Ok(xs) => Ok([x] + xs)
  }

  /** The stitched rows of every grid row, top to bottom. */
  function Blocks(rows: seq<seq<Option<Tile>>>, s: nat): Result<seq<seq<bool>>>
    decreases |rows|
  {
    if rows == [] then Ok([])
    else
      match Lines(rows[0], 1, s)
      case Err(m) => Err(m)
      case Ok(ls) =>
        match Blocks(rows[1..], s)
        case Err(m) => Err(m)
        case Ok(rest) => Ok(ls + rest)
  }

  /** `toStitchedTile`: the `check` over `allPoints` (which leaves out the
      last row and column), then the cell whose tile fixes the size, then
      the stitched rows, made into a tile with id 0. */
  function Stitch(c: Cells): Result<Tile>
    requires Shaped(c)
  {
    if exists i, j :: 0 <= i < |c| - 1 && 0 <= j < |c| - 1 && c[i][j].None? then
      Err("IllegalStateException")
    else if |c| == 0 then Err("ArrayIndexOutOfBoundsException")
    else
      match c[0][0]
      case None => Err("NullPointerException")
      case Some(t) =>
        match Blocks(c, Size(t))
        case Err(m) => Err(m)
        case Ok(g) => MakeTile(0, g)
  }

  /** Every cell is filled, the top-left tile has an inner part, and no
      tile is more than one pixel smaller than it. */
  predicate Stitchable(c: Cells)
    requires Shaped(c)
  {
    |c| >= 1 &&
    (forall i, j :: 0 <= i < |c| && 0 <= j < |c| ==> c[i][j].Some?) &&
    Size(c[0][0].value) >= 3 &&
    (forall i, j :: 0 <= i < |c| && 0 <= j < |c| ==> Size(c[i][j].value) >= Size(c[0][0].value) - 1)
  }

  predicate CellCovers(cell: Option<Tile>, r: nat, s: nat)
  {
    cell.Some? && r < |cell.value.grid| && s - 1 <= |cell.value.grid[r]|
  }

  predicate RowCovers(row: seq<Option<Tile>>, r: nat, s: nat)
  {
    forall j :: 0 <= j < |row| ==> CellCovers(row[j], r, s)
  }

  predicate LinesCover(row: seq<Option<Tile>>, r: nat, s: nat)
  {
    forall r' :: r <= r' < s - 1 ==> RowCovers(row, r', s)
  }

  predicate BlocksCover(rows: seq<seq<Option<Tile>>>, s: nat)
  {
    forall i :: 0 <= i < |rows| ==> LinesCover(rows[i], 1, s)
  }

  lemma DivStep(x: nat, k: nat)
    requires k > 0
    ensures x < k ==> x / k == 0 && x % k == x
    ensures x >= k ==> (x - k) / k == x / k - 1 && (x - k) % k == x % k
  {
    if x < k {
      Modular.ModUnique(x, k, 0, x);
    } else {
      assert x == (x / k) * k + x % k;
      assert x - k == (x / k - 1) * k + x % k;
      Modular.ModUnique(x - k, k, x / k - 1, x % k);
    }
  }

  lemma RowCoversSplit(row: seq<Option<Tile>>, r: nat, s: nat)
    requires row != []
    ensures RowCovers(row, r, s) <==> CellCovers(row[0], r, s) && RowCovers(row[1..], r, s)
  {
    if CellCovers(row[0], r, s) && RowCovers(row[1..], r, s) {
      forall j | 0 < j < |row| ensures CellCovers(row[j], r, s) {
        assert row[j] == row[1..][j - 1];
      }
    }
  }

  /** A stitched row exists exactly when every cell can give its row `r`,
      and then it holds s - 2 pixels per cell. */
  lemma {:induction false} LineMeaning(row: seq<Option<Tile>>, r: nat, s: nat)
    requires s >= 3
    ensures Line(row, r, s).Ok? <==> RowCovers(row, r, s)
    ensures Line(row, r, s).Ok? ==> |Line(row, r, s).value| == |row| * (s - 2)
    decreases |row|
  {
    if row != [] {
      LineMeaning(row[1..], r, s);
      RowCoversSplit(row, r, s);
      if Line(row, r, s).Ok? {
        assert |row| * (s - 2) == (s - 2) + |row[1..]| * (s - 2);
      }
    }
  }

  /** Pixel x of stitched row `r` is inner pixel x % k of cell x / k,
      with k = s - 2. */
  predicate RowPixel(row: seq<Option<Tile>>, r: nat, k: nat, line: seq<bool>, x: nat)
    requires k > 0 && x < |line|
  {
    x / k < |row| && row[x / k].Some? &&
    r < |row[x / k].value.grid| && x % k + 1 < |row[x / k].value.grid[r]| &&
    line[x] == row[x / k].value.grid[r][x % k + 1]
  }

  lemma {:induction false} LinePixel(row: seq<Option<Tile>>, r: nat, s: nat, x: nat)
    requires s >= 3 && Line(row, r, s).Ok? && x < |Line(row, r, s).value|
    ensures RowPixel(row, r, s - 2, Line(row, r, s).value, x)
    decreases |row|
  {
    var k := s - 2;
    var p := Inner(row[0], r, s).value;
    var q := Line(row[1..], r, s).value;
    assert |p| == k;
    DivStep(x, k);
    if x >= k {
      LinePixel(row[1..], r, s, x - k);
      assert row[x / k] == row[1..][(x - k) / k];
    }
  }

  /** The rows of one grid row exist exactly when each of its tile rows
      does, and they come in tile-row order. */
  lemma {:induction false} LinesMeaning(row: seq<Option<Tile>>, r: nat, s: nat)
    requires r >= 1
    ensures Lines(row, r, s).Ok? <==> LinesCover(row, r, s)
    ensures Lines(row, r, s).Ok? ==> |Lines(row, r, s).value| == if r + 1 >= s then 0 else s - 1 - r
    ensures Lines(row, r, s).Ok? ==> forall i :: 0 <= i < |Lines(row, r, s).value| ==>
      s >= 3 && Line(row, r + i, s) == Ok(Lines(row, r, s).value[i])
    decreases s - r
  {
    if r + 1 < s {
      LinesMeaning(row, r + 1, s);
      LineMeaning(row, r, s);
      if LinesCover(row, r, s) {
        assert RowCovers(row, r, s);
      }
      if Lines(row, r, s).Ok? {
        var xs := Lines(row, r, s).value;
        forall i | 0 <= i < |xs| ensures s >= 3 && Line(row, r + i, s) == Ok(xs[i]) {
          if i > 0 {
            assert xs[i] == Lines(row, r + 1, s).value[i - 1];
          }
        }
      }
    }
  }

  /** All stitched rows exist exactly when every grid row's do, s - 2 of
      them per grid row. */
  lemma {:induction false} BlocksMeaning(rows: seq<seq<Option<Tile>>>, s: nat)
    requires s >= 3
    ensures Blocks(rows, s).Ok? <==> BlocksCover(rows, s)
    ensures Blocks(rows, s).Ok? ==> |Blocks(rows, s).value| == |rows| * (s - 2)
    decreases |rows|
  {
    if rows != [] {
      BlocksMeaning(rows[1..], s);
      LinesMeaning(rows[0], 1, s);
      BlocksCoverSplit(rows, s);
      if Blocks(rows, s).Ok? {
        assert |rows| * (s - 2) == (s - 2) + |rows[1..]| * (s - 2);
      }
    }
  }

  lemma BlocksCoverSplit(rows: seq<seq<Option<Tile>>>, s: nat)
    requires rows != []
    ensures BlocksCover(rows, s) <==> LinesCover(rows[0], 1, s) && BlocksCover(rows[1..], s)
  {
    if LinesCover(rows[0], 1, s) && BlocksCover(rows[1..], s) {
      forall i | 0 < i < |rows| ensures LinesCover(rows[i], 1, s) {
        assert rows[i] == rows[1..][i - 1];
      }
    }
  }

  /** Stitched row y is tile row y % k + 1 of grid row y / k. */
  lemma {:induction false} BlocksRow(rows: seq<seq<Option<Tile>>>, s: nat, y: nat)
    requires s >= 3 && Blocks(rows, s).Ok? && y < |Blocks(rows, s).value|
    ensures y / (s - 2) < |rows| && Line(rows[y / (s - 2)], y % (s - 2) + 1, s) == Ok(Blocks(rows, s).value[y])
    decreases |rows|
  {
    var k := s - 2;
    LinesMeaning(rows[0], 1, s);
    var ls := Lines(rows[0], 1, s).value;
    var rest := Blocks(rows[1..], s).value;
    var all := Blocks(rows, s).value;
    assert all == ls + rest && |ls| == k;
    DivStep(y, k);
    if y >= k {
      assert all[y] == rest[y - k];
      BlocksRow(rows[1..], s, y - k);
      assert rows[y / k] == rows[1..][(y - k) / k];
    } else {
      assert all[y] == ls[y];
      assert Line(rows[0], 1 + y, s) == Ok(ls[y]);
    }
  }

  /** On a shaped grid, what the stitching needs of each cell. */
  lemma CoverIsStitchable(c: Cells)
    requires Shaped(c) && |c| >= 1 && c[0][0].Some? && Size(c[0][0].value) >= 3
    ensures BlocksCover(c, Size(c[0][0].value)) <==> Stitchable(c)
  {
    var s := Size(c[0][0].value);
    if Stitchable(c) {
      forall i, r', j | 0 <= i < |c| && 1 <= r' < s - 1 && 0 <= j < |c[i]|
        ensures CellCovers(c[i][j], r', s)
      {
        assert Square(c[i][j].value.grid);
      }
    }
    if BlocksCover(c, s) {
      forall i, j | 0 <= i < |c| && 0 <= j < |c|
        ensures c[i][j].Some? && Size(c[i][j].value) >= s - 1
      {
        assert LinesCover(c[i], 1, s);
        assert RowCovers(c[i], 1, s);
        assert CellCovers(c[i][j], 1, s);
        assert Square(c[i][j].value.grid);
      }
    }
  }

  /** The stitch succeeds exactly on stitchable grids: an unset cell
      anywhere, a top-left tile of size two or less, or a tile smaller
      than the top-left one by two or more makes it fail. */
  lemma StitchOk(c: Cells)
    requires Shaped(c)
    ensures Stitch(c).Ok? <==> Stitchable(c)
  {
    if |c| >= 1 && c[0][0].Some? {
      var s := Size(c[0][0].value);
      if s >= 3 {
        BlocksMeaning(c, s);
        CoverIsStitchable(c);
        if Stitchable(c) {
          var g := Blocks(c, s).value;
          StitchedSquare(c, s, g);
        }
      } else {
        BlocksEmpty(c, s);
      }
    }
  }

  lemma {:induction false} BlocksEmpty(rows: seq<seq<Option<Tile>>>, s: nat)
    requires s < 3
    ensures Blocks(rows, s) == Ok([])
    decreases |rows|
  {
    if rows != [] {
      BlocksEmpty(rows[1..], s);
      assert Lines(rows[0], 1, s) == Ok([]);
      var none: seq<seq<bool>> := [];
      assert none + none == none;
    }
  }

  lemma StitchedSquare(c: Cells, s: nat, g: seq<seq<bool>>)
    requires Shaped(c) && |c| >= 1 && s >= 3 && Blocks(c, s) == Ok(g)
    ensures Square(g) && |g| == |c| * (s - 2)
  {
    BlocksMeaning(c, s);
    Modular.MulAtLeast(|c|, s - 2);
    forall y | 0 <= y < |g| ensures |g[y]| == |g| {
      StitchedRowLength(c, s, g, y);
    }
  }

  lemma StitchedRowLength(c: Cells, s: nat, g: seq<seq<bool>>, y: nat)
    requires Shaped(c) && s >= 3 && Blocks(c, s) == Ok(g) && y < |g|
    ensures |g[y]| == |c| * (s - 2)
  {
    BlocksRow(c, s, y);
    var row := c[y / (s - 2)];
    LineMeaning(row, y % (s - 2) + 1, s);
    assert |row| == |c|;
  }

  /** Pixel (y, x) of the stitched grid `g` is inner pixel (y % k, x % k)
      of the tile in cell (y / k, x / k). */
  predicate GridPixel(c: Cells, s: nat, g: seq<seq<bool>>, y: nat, x: nat)
    requires s >= 3 && y < |g| && x < |g[y]|
  {
    var k := s - 2;
    y / k < |c| && x / k < |c[y / k]| && c[y / k][x / k].Some? &&
    y % k + 1 < Size(c[y / k][x / k].value) &&
    x % k + 1 < |c[y / k][x / k].value.grid[y % k + 1]| &&
    g[y][x] == c[y / k][x / k].value.grid[y % k + 1][x % k + 1]
  }

  /** The stitched tile has id 0, |c| * k rows and columns for k the
      top-left tile's size less its two border pixels, and each of its
      pixels comes from the cell and inner pixel that `GridPixel` names. */
  lemma StitchPixels(c: Cells)
    requires Shaped(c) && Stitchable(c)
    ensures Stitch(c).Ok? && Stitch(c).value.id == 0 && Square(Stitch(c).value.grid)
    ensures |Stitch(c).value.grid| == |c| * (Size(c[0][0].value) - 2)
    ensures forall y, x :: 0 <= y < |Stitch(c).value.grid| && 0 <= x < |Stitch(c).value.grid| ==>
      GridPixel(c, Size(c[0][0].value), Stitch(c).value.grid, y, x)
  {
    StitchOk(c);
    var s := Size(c[0][0].value);
    BlocksMeaning(c, s);
    var g := Blocks(c, s).value;
    StitchedSquare(c, s, g);
    assert Stitch(c).value.grid == g;
    forall y, x | 0 <= y < |g| && 0 <= x < |g| ensures GridPixel(c, s, g, y, x) {
      StitchPixel(c, s, g, y, x);
    }
  }

  lemma StitchPixel(c: Cells, s: nat, g: seq<seq<bool>>, y: nat, x: nat)
    requires Shaped(c) && |c| >= 1 && s >= 3 && Blocks(c, s) == Ok(g)
    requires y < |g| && x < |g[y]|
    ensures GridPixel(c, s, g, y, x)
  {
    var k := s - 2;
    BlocksRow(c, s, y);
    var i, a := y / k, y % k;
    var row := c[i];
    var line := Line(row, a + 1, s).value;
    assert line == g[y];
    LinePixel(row, a + 1, s, x);
    assert RowPixel(row, a + 1, k, line, x);
  }
}
