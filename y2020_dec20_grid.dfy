// Advent of Code 2020, day 20 (continued): reading tiles, the mutable grid
// of placed tiles, the backtracking search that fills it, the corner
// product of part 1 and the stitched image of part 2.

module Y2020Dec20Grid {
  import opened Common
  import opened Y2020Dec20
  import Y2020Paragraphs

  // --------------------------------------------------------------- parsing

  /** Kotlin's `removePrefix`. */
  function RemovePrefix(s: string, pre: string): string
  {
    if pre <= s then s[|pre|..] else s
  }

  /** Kotlin's `removeSuffix`. */
  function RemoveSuffix(s: string, suf: string): string
  {
    if |suf| <= |s| && s[|s| - |suf|..] == suf then s[..|s| - |suf|] else s
  }

  /** A pixel character: '.' is clear, '#' is set, anything else is the
      source's "Unexpected character" error. */
  function ParsePixel(c: char): Result<bool>
  {
    if c == '.' then Ok(false)
    else if c == '#' then Ok(true)
    else Err("Unexpected character " + [c])
  }

  /** One grid line, failing at its first character that is not a pixel. */
  function ParseRow(line: string): (r: Result<seq<bool>>)
    ensures r.Ok? ==> |r.value| == |line|
  {
    if line == [] then Ok([])
    else
      match ParsePixel(line[0])
      case Err(m) => Err(m)
      case Ok(b) =>
        match ParseRow(line[1..])
        case Err(m) => Err(m)
        case Ok(bs) => Ok([b] + bs)
  }

  /** The grid lines in order, failing at the first line that fails. */
  function ParseRows(lines: seq<string>): (r: Result<seq<seq<bool>>>)
    ensures r.Ok? ==> |r.value| == |lines| && forall i :: 0 <= i < |lines| ==> |r.value[i]| == |lines[i]|
  {
    if lines == [] then Ok([])
    else
      match ParseRow(lines[0])
      case Err(m) => Err(m)
      case Ok(row) =>
        match ParseRows(lines[1..])
        case Err(m) => Err(m)
        case Ok(rows) => Ok([row] + rows)
  }

  /** The `Tile` constructor's checks, in their order: the first row must
      exist, the grid must be as high as that row is long, and no row may
      be empty (`last()` of the row). A grid whose later rows differ in
      length from the first is refused as well. */
  function MakeTile(id: int, grid: seq<seq<bool>>): (r: Result<Tile>)
    ensures r.Ok? <==> Square(grid)
    ensures r.Ok? ==> r.value == Tile(id, grid)
  {
    if grid == [] then Err("IndexOutOfBoundsException")
    else if |grid| != |grid[0]| then Err("IllegalStateException")
    else if exists r :: 0 <= r < |grid| && grid[r] == [] then Err("NoSuchElementException")
    else if !Square(grid) then Err("ragged grid")
    else Ok(Tile(id, grid))
  }

  /** `Tile.parse`: a "Tile <id>:" heading, then the grid lines. */
  function ParseTile(paragraph: string): (r: Result<Tile>)
    ensures r.Ok? ==> Square(r.value.grid)
  {
    var lines := SplitOn(paragraph, '\n');
    match ParseInt(RemoveSuffix(RemovePrefix(lines[0], "Tile "), ":"))
    case None => Err("NumberFormatException")
    case Some(id) =>
      match ParseRows(lines[1..])
      case Err(m) => Err(m)
      case Ok(grid) => MakeTile(id, grid)
  }

  /** The paragraph a tile is read from: its heading and its rows drawn
      with `toEdge`'s characters. */
  function TileText(t: Tile): string
  {
    Y2020Paragraphs.Join(TileLines(t))
  }

  function TileLines(t: Tile): seq<string>
  {
    ["Tile " + IntString(t.id) + ":"] + Drawn(t.grid)
  }

  /** Each row drawn with `toEdge`'s characters. */
  function Drawn(g: seq<seq<bool>>): (ls: seq<string>)
    ensures |ls| == |g| && forall i :: 0 <= i < |g| ==> ls[i] == EdgeText(g[i])
  {
    seq(|g|, i requires 0 <= i < |g| => EdgeText(g[i]))
  }

  lemma {:induction false} ParseRowText(bs: seq<bool>)
    ensures ParseRow(EdgeText(bs)) == Ok(bs)
  {
    if bs != [] {
      ParseRowText(bs[1..]);
      assert EdgeText(bs)[1..] == EdgeText(bs[1..]);
      assert [bs[0]] + bs[1..] == bs;
    }
  }

  lemma {:induction false} ParseRowsText(g: seq<seq<bool>>)
    ensures ParseRows(Drawn(g)) == Ok(g)
  {
    var ls := Drawn(g);
    if g != [] {
      ParseRowText(g[0]);
      ParseRowsText(g[1..]);
      assert ls[1..] == Drawn(g[1..]);
      assert [g[0]] + g[1..] == g;
    }
  }

  lemma NoNewlineInInt(i: int)
    ensures '\n' !in IntString(i)
  {
    var t := NatString(if i < 0 then -i else i);
    NatStringValue(if i < 0 then -i else i);
    forall k | 0 <= k < |t| ensures t[k] != '\n' {
      assert IsDigit(t[k]);
    }
    assert '\n' !in t;
    assert IntString(i) == if i < 0 then "-" + t else t;
  }

  /** `parse` reads back a square tile from its drawing. */
  lemma ParseTileText(t: Tile)
    requires Square(t.grid)
    ensures ParseTile(TileText(t)) == Ok(t)
  {
    var lines := TileLines(t);
    var s := IntString(t.id);
    NoNewlineInInt(t.id);
    assert '\n' !in lines[0];
    forall k | 0 <= k < |lines| ensures '\n' !in lines[k] {
      if k > 0 {
        assert lines[k] == EdgeText(t.grid[k - 1]);
      }
    }
    Y2020Paragraphs.SplitJoin(lines);
    assert RemovePrefix(lines[0], "Tile ") == s + ":";
    assert RemoveSuffix(s + ":", ":") == s;
    ParseIntString(t.id);
    ParseRowsText(t.grid);
    assert lines[1..] == Drawn(t.grid);
  }

  // ---------------------------------------------------------- grid values

  /** The contents of a grid of cells, row by row; `None` is an empty cell. */
  type Cells = seq<seq<Option<Tile>>>

  /** Square, with a square tile in every filled cell. */
  predicate Shaped(c: Cells)
  {
    (forall i :: 0 <= i < |c| ==> |c[i]| == |c|) &&
    (forall i, j :: 0 <= i < |c| && 0 <= j < |c[i]| && c[i][j].Some? ==> Square(c[i][j].value.grid))
  }

  predicate InGrid(n: int, p: Point) { 0 <= p.0 < n && 0 <= p.1 < n }

  function At(c: Cells, p: Point): Option<Tile>
    requires Shaped(c) && InGrid(|c|, p)
  {
    c[p.0][p.1]
  }

  function Put(c: Cells, p: Point, t: Option<Tile>): (d: Cells)
    requires Shaped(c) && InGrid(|c|, p) && (t.Some? ==> Square(t.value.grid))
    ensures Shaped(d) && |d| == |c|
    ensures forall q :: InGrid(|c|, q) ==> At(d, q) == if q == p then t else At(c, q)
  {
    c[p.0 := c[p.0][p.1 := t]]
  }

  function Blank(n: nat): (c: Cells)
    ensures Shaped(c) && |c| == n
    ensures forall q :: InGrid(n, q) ==> At(c, q).None?
  {
    seq(n, _ => seq(n, _ => None))
  }

  /** `isUsed` as the source writes it: over `allPoints`, which is
      `(0, 0) until (size - 1, size - 1)` and so misses the last row and
      the last column. */
  predicate UsedAsWritten(c: Cells, id: int)
    requires Shaped(c)
  {
    exists p :: p in Until((0, 0), (|c| - 1, |c| - 1)) && At(c, p).Some? && At(c, p).value.id == id
  }

  /** `isUsed` as intended: some cell of the grid holds a tile with this id. */
  predicate Used(c: Cells, id: int)
    requires Shaped(c)
  {
    exists i, j :: 0 <= i < |c| && 0 <= j < |c| && c[i][j].Some? && c[i][j].value.id == id
  }

  /** A tile in the last cell of a 2 by 2 grid is not seen by the written
      `isUsed`, so the search may place the same tile twice. */
  lemma UsedAsWrittenMisses(t: Tile)
    requires Square(t.grid)
    ensures var c := [[None, None], [None, Some(t)]];
      Shaped(c) && Used(c, t.id) && !UsedAsWritten(c, t.id)
  {
    var c: Cells := [[None, None], [None, Some(t)]];
    assert c[1][1] == Some(t);
    assert Until((0, 0), (1, 1)) == [(0, 0)];
  }

  /** Every point the written `isUsed` looks at is in the grid. */
  lemma UsedAsWrittenWeaker(c: Cells, id: int)
    requires Shaped(c) && UsedAsWritten(c, id)
    ensures Used(c, id)
  {
    var p :| p in Until((0, 0), (|c| - 1, |c| - 1)) && At(c, p).Some? && At(c, p).value.id == id;
    assert c[p.0][p.1].Some? && c[p.0][p.1].value.id == id;
  }

  // -------------------------------------------------------- the tile grid

  /** `TileGrid`: a square of cells, each empty or holding a tile. */
  class TileGrid {
    const size: nat
    const cells: array2<Option<Tile>>

    ghost predicate Valid()
      reads this, cells
    {
      cells.Length0 == size && cells.Length1 == size &&
      forall i, j :: 0 <= i < size && 0 <= j < size && cells[i, j].Some? ==> Square(cells[i, j].value.grid)
    }

    /** The cells, row by row. */
    function Snapshot(): (c: Cells)
      reads this, cells
      requires cells.Length0 == size && cells.Length1 == size
      ensures |c| == size && forall i :: 0 <= i < size ==> |c[i]| == size
      ensures forall i, j :: 0 <= i < size && 0 <= j < size ==> c[i][j] == cells[i, j]
    {
      seq(size, i requires 0 <= i < size reads this, cells =>
        seq(size, j requires 0 <= j < size reads this, cells => cells[i, j]))
    }

    constructor (size: nat)
      ensures Valid() && this.size == size && fresh(cells)
      ensures Snapshot() == Blank(size)
    {
      this.size := size;
      cells := new Option<Tile>[size, size]((_, _) => None);
      new;
      CellsEqual(Snapshot(), Blank(size));
    }

    predicate Contains(p: Point) { InGrid(size, p) }

    function Get(p: Point): (t: Option<Tile>)
      reads this, cells
      requires Valid() && Contains(p)
      ensures Shaped(Snapshot()) && t == At(Snapshot(), p)
    {
      cells[p.0, p.1]
    }

    method Set(p: Point, t: Option<Tile>)
      modifies cells
      requires Valid() && Contains(p) && (t.Some? ==> Square(t.value.grid))
      ensures Valid() && Shaped(old(Snapshot()))
      ensures Snapshot() == Put(old(Snapshot()), p, t)
      ensures forall a, b :: 0 <= a < size && 0 <= b < size ==>
        cells[a, b] == if a == p.0 && b == p.1 then t else old(cells[a, b])
    {
      cells[p.0, p.1] := t;
      CellsEqual(Snapshot(), Put(old(Snapshot()), p, t));
    }

    predicate IsSet(p: Point)
      reads this, cells
      requires Valid() && Contains(p)
    {
      Get(p).Some?
    }

    predicate IsUsedAsWritten(id: int)
      reads this, cells
      requires Valid()
    {
      Shaped(Snapshot()) && UsedAsWritten(Snapshot(), id)
    }

    predicate IsUsed(id: int)
      reads this, cells
      requires Valid()
    {
      Shaped(Snapshot()) && Used(Snapshot(), id)
    }

    /** `validPlacement`: the point is in the grid, and for every expected
        direction the neighbour there is in the grid and, when filled,
        lies in that direction from the tile. */
    method ValidPlacement(point: Point, tile: Tile, directions: set<Side>) returns (ok: bool)
      requires Valid() && Square(tile.grid)
      ensures Shaped(Snapshot()) && ok == Placeable(Snapshot(), point, tile, directions)
    {
      if !Contains(point) {
        return false;
      }
      var rest := directions;
      while rest != {}
        invariant rest <= directions
        invariant forall d :: d in directions - rest ==> NeighbourFits(Snapshot(), point, tile, d)
        decreases |rest|
      {
        var d :| d in rest;
        var neighbour := FromPoint(d, point);
        if !Contains(neighbour) {
          return false;
        }
        var n := Get(neighbour);
        if n.Some? && DirectionTo(tile, n.value) != Some(d) {
          return false;
        }
        rest := rest - {d};
      }
      return true;
    }

    /** The inner loop of `copy`: row i of this grid into `r`. */
    method CopyRow(r: TileGrid, i: nat)
      modifies r.cells
      requires Valid() && r.Valid() && r.size == size && i < size && r.cells != cells
      ensures r.Valid()
      ensures forall a, b :: 0 <= a < size && 0 <= b < size ==>
        r.cells[a, b] == if a == i then cells[a, b] else old(r.cells[a, b])
    {
      for j := 0 to size
        invariant r.Valid()
        invariant forall a, b :: 0 <= a < size && 0 <= b < size ==>
          r.cells[a, b] == if a == i && b < j then cells[a, b] else old(r.cells[a, b])
      {
        r.Set((i, j), Get((i, j)));
      }
    }

    /** `copy`: a new grid with the same cells. */
    method Copy() returns (r: TileGrid)
      requires Valid()
      ensures fresh(r) && fresh(r.cells) && r.Valid() && r.size == size
      ensures r.Snapshot() == Snapshot()
    {
      r := new TileGrid(size);
      for i := 0 to size
        invariant fresh(r.cells) && r.Valid() && r.size == size
        invariant forall a, b :: 0 <= a < i && 0 <= b < size ==> r.cells[a, b] == cells[a, b]
        invariant forall a, b :: i <= a < size && 0 <= b < size ==> r.cells[a, b].None?
      {
        CopyRow(r, i);
      }
      CellsEqual(r.Snapshot(), Snapshot());
    }
  }

  /** Two cell grids of the same shape with the same cells are equal. */
  lemma CellsEqual(a: Cells, b: Cells)
    requires |a| == |b| && forall i :: 0 <= i < |a| ==> |a[i]| == |b[i]|
    requires forall i, j :: 0 <= i < |a| && 0 <= j < |a[i]| ==> a[i][j] == b[i][j]
    ensures a == b
  {
    forall i | 0 <= i < |a| ensures a[i] == b[i] {
      assert forall j :: 0 <= j < |a[i]| ==> a[i][j] == b[i][j];
    }
  }

  /** The neighbour in direction `d` is in the grid and, when filled, lies
      in direction `d` from `tile`. */
  predicate NeighbourFits(c: Cells, p: Point, tile: Tile, d: Side)
    requires Shaped(c) && Square(tile.grid)
  {
    var n := FromPoint(d, p);
    InGrid(|c|, n) && (At(c, n).Some? ==> DirectionTo(tile, At(c, n).value) == Some(d))
  }

  predicate Placeable(c: Cells, p: Point, tile: Tile, directions: set<Side>)
    requires Shaped(c) && Square(tile.grid)
  {
    InGrid(|c|, p) && forall d :: d in directions ==> NeighbourFits(c, p, tile, d)
  }
}

module Y2020Dec20Search {
  import opened Common
  import opened Y2020Dec20
  import opened Y2020Dec20Grid

  /** What the search reads and never changes: `edgeIndex`, the variants
      having each edge in insertion order, and `expectedDirections`, the
      sides on which a variant has an edge that another tile shares. */
  datatype Tables = Tables(edgeIndex: map<string, seq<Tile>>, expectedDirections: map<Tile, set<Side>>)

  predicate TablesOk(tb: Tables)
  {
    forall e, k :: e in tb.edgeIndex && 0 <= k < |tb.edgeIndex[e]| ==> Square(tb.edgeIndex[e][k].grid)
  }

  predicate NoDup<T(==)>(s: seq<T>)
  {
    forall i, j :: 0 <= i < j < |s| ==> s[i] != s[j]
  }

  /** Adding to an insertion-ordered set. */
  function AddNew<T(==,!new)>(s: seq<T>, x: T): (r: seq<T>)
    ensures NoDup(s) ==> NoDup(r)
    ensures forall y :: y in r <==> y in s || y == x
  {
    if x in s then s else s + [x]
  }

  /** The queue holds distinct empty cells of the grid. */
  predicate QueueOk(c: Cells, q: seq<Point>)
    requires Shaped(c)
  {
    NoDup(q) && forall k :: 0 <= k < |q| ==> InGrid(|c|, q[k]) && At(c, q[k]).None?
  }

  /** The empty cells. */
  function Unset(c: Cells): set<Point>
    requires Shaped(c)
  {
    set i, j | 0 <= i < |c| && 0 <= j < |c| && c[i][j].None? :: (i, j)
  }

  /** Filling an empty cell leaves fewer empty cells. */
  lemma PutShrinks(c: Cells, p: Point, t: Tile)
    requires Shaped(c) && InGrid(|c|, p) && At(c, p).None? && Square(t.grid)
    ensures Unset(Put(c, p, Some(t))) < Unset(c)
  {
    var d := Put(c, p, Some(t));
    assert p in Unset(c);
    forall q | q in Unset(d) ensures q in Unset(c) && q != p {
      assert At(d, q).None?;
    }
  }

  /** After filling the queue's first cell, the rest of the queue is still
      a queue of empty cells. */
  lemma RestStaysOk(c: Cells, p: Point, t: Tile, rest: seq<Point>)
    requires Shaped(c) && QueueOk(c, [p] + rest) && Square(t.grid)
    ensures InGrid(|c|, p) && At(c, p).None? && QueueOk(Put(c, p, Some(t)), rest)
  {
    var q := [p] + rest;
    assert q[0] == p;
    forall k | 0 <= k < |rest| ensures rest[k] != p && InGrid(|c|, rest[k]) && At(c, rest[k]).None? {
      assert q[k + 1] == rest[k] && q[0] == p;
    }
    forall i, j | 0 <= i < j < |rest| ensures rest[i] != rest[j] {
      assert q[i + 1] == rest[i] && q[j + 1] == rest[j];
    }
  }

  /** The `directionEdges` loop after placing `t` at `p`, from side k on:
      each neighbour inside the grid comes to expect `t`'s edge on that
      side, and joins the queue when its cell is empty. */
  function Spread(c: Cells, p: Point, t: Tile, k: nat, q: seq<Point>, expected: map<Point, seq<string>>)
    : (r: (seq<Point>, map<Point, seq<string>>))
    requires Shaped(c) && Square(t.grid) && k <= 4 && QueueOk(c, q)
    ensures QueueOk(c, r.0)
    decreases 4 - k
  {
    if k == 4 then (q, expected)
    else
      var n := FromPoint(Sides[k], p);
      if InGrid(|c|, n) then
        var have := if n in expected then expected[n] else [];
        var expected' := expected[n := AddNew(have, Edges(t)[k])];
        var q' := if At(c, n).None? then AddNew(q, n) else q;
        Spread(c, p, t, k + 1, q', expected')
      else
        Spread(c, p, t, k + 1, q, expected)
  }

  /** `recurse`: fill the grid from a queue of empty cells and the edges
      each cell is expected to show. `Ok(None)` is the source's `null` (no
      filling from here on); `Err` is an exception. */
  function Search(tb: Tables, c: Cells, queue: seq<Point>, expected: map<Point, seq<string>>): Result<Option<Cells>>
    requires TablesOk(tb) && Shaped(c) && QueueOk(c, queue)
    decreases Unset(c), 3, 0
  {
    if queue == [] && |c| >= 2 then
      // the loop over `allPoints` returns at its first point, (0, 0)
      Ok(if At(c, (0, 0)).Some? then Some(c) else None)
    else if queue == [] then Err("NoSuchElementException")
    else if queue[0] !in expected then Err("NoSuchElementException")
    else
      assert queue == [queue[0]] + queue[1..];
      TryEdges(tb, c, queue[0], queue[1..], expected, expected[queue[0]])
  }

  /** The loop over the edges expected at `p`. */
  function TryEdges(tb: Tables, c: Cells, p: Point, rest: seq<Point>, expected: map<Point, seq<string>>,
                    edges: seq<string>): Result<Option<Cells>>
    requires TablesOk(tb) && Shaped(c) && QueueOk(c, [p] + rest)
    decreases Unset(c), 2, |edges|
  {
    if edges == [] then Ok(None)
    else if edges[0] !in tb.edgeIndex then Err("NoSuchElementException")
    else
      var r := TryTiles(tb, c, p, rest, expected, tb.edgeIndex[edges[0]]);
      if r.Err? || r.value.Some? then r else TryEdges(tb, c, p, rest, expected, edges[1..])
  }

  /** The loop over the tiles having one expected edge. */
  function TryTiles(tb: Tables, c: Cells, p: Point, rest: seq<Point>, expected: map<Point, seq<string>>,
                    tiles: seq<Tile>): Result<Option<Cells>>
    requires TablesOk(tb) && Shaped(c) && QueueOk(c, [p] + rest)
    requires forall k :: 0 <= k < |tiles| ==> Square(tiles[k].grid)
    decreases Unset(c), 1, |tiles|
  {
    if tiles == [] then Ok(None)
    else
      var r := TryTile(tb, c, p, rest, expected, tiles[0]);
      if r.Err? || r.value.Some? then r else TryTiles(tb, c, p, rest, expected, tiles[1..])
  }

  /** One pass of that loop: a tile whose id is already in the grid, or
      that does not fit, is skipped (`Ok(None)`); otherwise it is placed at
      `p` on a copy of the grid and the search goes on from there. */
  function TryTile(tb: Tables, c: Cells, p: Point, rest: seq<Point>, expected: map<Point, seq<string>>,
                   t: Tile): Result<Option<Cells>>
    requires TablesOk(tb) && Shaped(c) && QueueOk(c, [p] + rest) && Square(t.grid)
    decreases Unset(c), 0, 0
  {
    if Used(c, t.id) then Ok(None)
    else if t !in tb.expectedDirections then Err("NoSuchElementException")
    else if !Placeable(c, p, t, tb.expectedDirections[t]) then Ok(None)
    else
      RestStaysOk(c, p, t, rest);
      var c' := Put(c, p, Some(t));
      PutShrinks(c, p, t);
      var next := Spread(c', p, t, 0, rest, expected);
      Search(tb, c', next.0, next.1)
  }

  // ---------------------------------------------------- what a search finds

  /** g keeps every tile already placed in c. */
  ghost predicate Extends(c: Cells, g: Cells)
    requires Shaped(c) && Shaped(g)
  {
    |g| == |c| && forall p :: InGrid(|c|, p) && At(c, p).Some? ==> At(g, p) == At(c, p)
  }

  /** No tile id is placed twice. */
  ghost predicate DistinctIds(c: Cells)
    requires Shaped(c)
  {
    forall p, q ::
      (InGrid(|c|, p) && InGrid(|c|, q) && At(c, p).Some? && At(c, q).Some? &&
       At(c, p).value.id == At(c, q).value.id) ==> p == q
  }

  /** Two filled neighbours, q and the cell on its side d, passed the check
      of whichever of them was placed later: q's tile names the other in
      direction d when d is among q's expected directions, or the other
      names q's tile in the opposite direction when that is among its own. */
  ghost predicate PairFits(tb: Tables, c: Cells, q: Point, d: Side)
    requires Shaped(c) && InGrid(|c|, q) && At(c, q).Some?
  {
    var n := FromPoint(d, q);
    var t := At(c, q).value;
    InGrid(|c|, n) && At(c, n).Some? && t in tb.expectedDirections && At(c, n).value in tb.expectedDirections ==>
      var u := At(c, n).value;
      (d in tb.expectedDirections[t] ==> DirectionTo(t, u) == Some(d)) ||
      (Opposite(d) in tb.expectedDirections[u] ==> DirectionTo(u, t) == Some(Opposite(d)))
  }

  /** A filled cell holds a tile with expected directions, each of which
      points inside the grid, and fits each of its filled neighbours. */
  ghost predicate CellFits(tb: Tables, c: Cells, q: Point)
    requires Shaped(c)
  {
    InGrid(|c|, q) && At(c, q).Some? ==>
      At(c, q).value in tb.expectedDirections &&
      (forall d :: d in tb.expectedDirections[At(c, q).value] ==> InGrid(|c|, FromPoint(d, q))) &&
      forall d :: PairFits(tb, c, q, d)
  }

  /** Every placement in the grid passed `validPlacement`. */
  ghost predicate Fitted(tb: Tables, c: Cells)
    requires Shaped(c)
  {
    forall q :: CellFits(tb, c, q)
  }

  /** A grid found from c: at least 2 by 2 with its first cell filled,
      keeping every tile of c, with distinct ids whenever c has them and
      every placement fitting whenever c's do. */
  ghost predicate Found(tb: Tables, c: Cells, g: Cells)
    requires Shaped(c)
  {
    Shaped(g) && Extends(c, g) && |g| >= 2 && At(g, (0, 0)).Some? &&
    (DistinctIds(c) ==> DistinctIds(g)) && (Fitted(tb, c) ==> Fitted(tb, g))
  }

  /** Placing a tile that passes `validPlacement` for its expected
      directions keeps every placement fitting. */
  lemma PutFits(tb: Tables, c: Cells, p: Point, t: Tile)
    requires Shaped(c) && InGrid(|c|, p) && At(c, p).None? && Square(t.grid)
    requires t in tb.expectedDirections && Placeable(c, p, t, tb.expectedDirections[t])
    requires Fitted(tb, c)
    ensures Fitted(tb, Put(c, p, Some(t)))
  {
    var c' := Put(c, p, Some(t));
    forall q ensures CellFits(tb, c', q) {
      if InGrid(|c|, q) && At(c', q).Some? {
        forall d ensures PairFits(tb, c', q, d) {
          PairFitsAfterPut(tb, c, p, t, q, d);
        }
        if q != p {
          assert CellFits(tb, c, q);
        }
      }
    }
  }

  lemma PairFitsAfterPut(tb: Tables, c: Cells, p: Point, t: Tile, q: Point, d: Side)
    requires Shaped(c) && InGrid(|c|, p) && At(c, p).None? && Square(t.grid)
    requires t in tb.expectedDirections && Placeable(c, p, t, tb.expectedDirections[t])
    requires Fitted(tb, c)
    requires InGrid(|c|, q) && At(Put(c, p, Some(t)), q).Some?
    ensures PairFits(tb, Put(c, p, Some(t)), q, d)
  {
    var c' := Put(c, p, Some(t));
    var n := FromPoint(d, q);
    SideLaws(d, q);
    if q == p {
      if InGrid(|c|, n) && At(c', n).Some? && d in tb.expectedDirections[t] {
        assert NeighbourFits(c, p, t, d);
      }
    } else {
      assert CellFits(tb, c, q);
      if n == p {
        if Opposite(d) in tb.expectedDirections[t] {
          assert NeighbourFits(c, p, t, Opposite(d));
        }
      } else {
        assert PairFits(tb, c, q, d);
      }
    }
  }

  /** Placing a tile whose id is unused in an empty cell keeps the tiles
      already placed and keeps ids distinct. */
  lemma PutKeeps(c: Cells, p: Point, t: Tile)
    requires Shaped(c) && InGrid(|c|, p) && At(c, p).None? && Square(t.grid) && !Used(c, t.id)
    ensures Extends(c, Put(c, p, Some(t)))
    ensures DistinctIds(c) ==> DistinctIds(Put(c, p, Some(t)))
  {
    forall a | InGrid(|c|, a) && At(c, a).Some? ensures At(c, a).value.id != t.id {
      assert c[a.0][a.1] == At(c, a);
    }
  }

  lemma {:induction false} SearchFound(tb: Tables, c: Cells, queue: seq<Point>, expected: map<Point, seq<string>>)
    requires TablesOk(tb) && Shaped(c) && QueueOk(c, queue)
    ensures var r := Search(tb, c, queue, expected); r.Ok? && r.value.Some? ==> Found(tb, c, r.value.value)
    decreases Unset(c), 3, 0
  {
    if queue != [] && queue[0] in expected {
      assert queue == [queue[0]] + queue[1..];
      TryEdgesFound(tb, c, queue[0], queue[1..], expected, expected[queue[0]]);
    }
  }

  lemma {:induction false} TryEdgesFound(tb: Tables, c: Cells, p: Point, rest: seq<Point>,
                                         expected: map<Point, seq<string>>, edges: seq<string>)
    requires TablesOk(tb) && Shaped(c) && QueueOk(c, [p] + rest)
    ensures var r := TryEdges(tb, c, p, rest, expected, edges); r.Ok? && r.value.Some? ==> Found(tb, c, r.value.value)
    decreases Unset(c), 2, |edges|
  {
    if edges != [] && edges[0] in tb.edgeIndex {
      TryTilesFound(tb, c, p, rest, expected, tb.edgeIndex[edges[0]]);
      TryEdgesFound(tb, c, p, rest, expected, edges[1..]);
    }
  }

  lemma {:induction false} TryTilesFound(tb: Tables, c: Cells, p: Point, rest: seq<Point>,
                                         expected: map<Point, seq<string>>, tiles: seq<Tile>)
    requires TablesOk(tb) && Shaped(c) && QueueOk(c, [p] + rest)
    requires forall k :: 0 <= k < |tiles| ==> Square(tiles[k].grid)
    ensures var r := TryTiles(tb, c, p, rest, expected, tiles); r.Ok? && r.value.Some? ==> Found(tb, c, r.value.value)
    decreases Unset(c), 1, |tiles|
  {
    if tiles != [] {
      TryTileFound(tb, c, p, rest, expected, tiles[0]);
      TryTilesFound(tb, c, p, rest, expected, tiles[1..]);
    }
  }

  lemma {:induction false} TryTileFound(tb: Tables, c: Cells, p: Point, rest: seq<Point>,
                                        expected: map<Point, seq<string>>, t: Tile)
    requires TablesOk(tb) && Shaped(c) && QueueOk(c, [p] + rest) && Square(t.grid)
    ensures var r := TryTile(tb, c, p, rest, expected, t); r.Ok? && r.value.Some? ==> Found(tb, c, r.value.value)
    decreases Unset(c), 0, 0
  {
    if !Used(c, t.id) && t in tb.expectedDirections && Placeable(c, p, t, tb.expectedDirections[t]) {
      RestStaysOk(c, p, t, rest);
      var c' := Put(c, p, Some(t));
      PutShrinks(c, p, t);
      PutKeeps(c, p, t);
      if Fitted(tb, c) {
        PutFits(tb, c, p, t);
      }
      var next := Spread(c', p, t, 0, rest, expected);
      SearchFound(tb, c', next.0, next.1);
    }
  }

  /** The search as the source starts it, from an empty grid with only
      the top-left cell queued: a grid it finds has that cell filled, no id
      twice and every tile placed where `validPlacement` allowed it. */
  lemma {:induction false} SearchFromBlank(tb: Tables, n: nat, expected: map<Point, seq<string>>)
    requires TablesOk(tb) && n >= 1
    ensures QueueOk(Blank(n), [(0, 0)])
    ensures var r := Search(tb, Blank(n), [(0, 0)], expected);
      r.Ok? && r.value.Some? ==>
        var g := r.value.value;
        Shaped(g) && |g| == n && At(g, (0, 0)).Some? && DistinctIds(g) && Fitted(tb, g)
  {
    var c := Blank(n);
    assert QueueOk(c, [(0, 0)]);
    assert DistinctIds(c) && Fitted(tb, c);
    SearchFound(tb, c, [(0, 0)], expected);
  }

  // ------------------------------------------------------- the search, run

  /** `recurse`, over `TileGrid` objects: the grid passed in is never
      changed; each placement works on a copy. */
  method Recurse(tb: Tables, grid: TileGrid, queue: seq<Point>, expected: map<Point, seq<string>>)
    returns (r: Result<Option<TileGrid>>)
    requires TablesOk(tb) && grid.Valid() && Shaped(grid.Snapshot()) && QueueOk(grid.Snapshot(), queue)
    ensures match r
      case Err(m) => Search(tb, grid.Snapshot(), queue, expected) == Err(m)
      case Ok(None) => Search(tb, grid.Snapshot(), queue, expected) == Ok(None)
      case Ok(Some(g)) => g.Valid() && Search(tb, grid.Snapshot(), queue, expected) == Ok(Some(g.Snapshot()))
    decreases Unset(grid.Snapshot()), 3
  {
    if queue == [] && grid.size >= 2 {
      // the loop over `allPoints` returns at its first point, (0, 0)
      if !grid.IsSet((0, 0)) {
        return Ok(None);
      }
      return Ok(Some(grid));
    }
    if queue == [] {
      return Err("NoSuchElementException");
    }
    var point := queue[0];
    var rest := queue[1..];
    if point !in expected {
      return Err("NoSuchElementException");
    }
    assert queue == [point] + rest;
    var edges := expected[point];
    ghost var c := grid.Snapshot();
    for k := 0 to |edges|
      invariant TryEdges(tb, c, point, rest, expected, edges) == TryEdges(tb, c, point, rest, expected, edges[k..])
    {
      assert edges[k..][0] == edges[k] && edges[k..][1..] == edges[k + 1..];
      if edges[k] !in tb.edgeIndex {
        return Err("NoSuchElementException");
      }
      var found := PlaceFrom(tb, grid, point, rest, expected, tb.edgeIndex[edges[k]]);
      if !(found.Ok? && found.value.None?) {
        return found;
      }
    }
    return Ok(None);
  }

  /** The inner loop of `recurse`, over the tiles having one expected edge. */
  method PlaceFrom(tb: Tables, grid: TileGrid, point: Point, rest: seq<Point>,
                   expected: map<Point, seq<string>>, tiles: seq<Tile>)
    returns (r: Result<Option<TileGrid>>)
    requires TablesOk(tb) && grid.Valid() && Shaped(grid.Snapshot()) && QueueOk(grid.Snapshot(), [point] + rest)
    requires forall k :: 0 <= k < |tiles| ==> Square(tiles[k].grid)
    ensures match r
      case Err(m) => TryTiles(tb, grid.Snapshot(), point, rest, expected, tiles) == Err(m)
      case Ok(None) => TryTiles(tb, grid.Snapshot(), point, rest, expected, tiles) == Ok(None)
      case Ok(Some(g)) => g.Valid() && TryTiles(tb, grid.Snapshot(), point, rest, expected, tiles) == Ok(Some(g.Snapshot()))
    decreases Unset(grid.Snapshot()), 2
  {
    ghost var c := grid.Snapshot();
    for m := 0 to |tiles|
      invariant TryTiles(tb, c, point, rest, expected, tiles) == TryTiles(tb, c, point, rest, expected, tiles[m..])
    {
      assert tiles[m..][0] == tiles[m] && tiles[m..][1..] == tiles[m + 1..];
      var found := PlaceOne(tb, grid, point, rest, expected, tiles[m]);
      if !(found.Ok? && found.value.None?) {
        return found;
      }
    }
    return Ok(None);
  }

  /** One pass of that loop. */
  method PlaceOne(tb: Tables, grid: TileGrid, point: Point, rest: seq<Point>,
                  expected: map<Point, seq<string>>, tile: Tile)
    returns (r: Result<Option<TileGrid>>)
    requires TablesOk(tb) && grid.Valid() && Shaped(grid.Snapshot()) && QueueOk(grid.Snapshot(), [point] + rest)
    requires Square(tile.grid)
    ensures match r
      case Err(m) => TryTile(tb, grid.Snapshot(), point, rest, expected, tile) == Err(m)
      case Ok(None) => TryTile(tb, grid.Snapshot(), point, rest, expected, tile) == Ok(None)
      case Ok(Some(g)) => g.Valid() && TryTile(tb, grid.Snapshot(), point, rest, expected, tile) == Ok(Some(g.Snapshot()))
    decreases Unset(grid.Snapshot()), 1
  {
    ghost var c := grid.Snapshot();
    if grid.IsUsed(tile.id) {
      return Ok(None);
    }
    if tile !in tb.expectedDirections {
      return Err("NoSuchElementException");
    }
    var ok := grid.ValidPlacement(point, tile, tb.expectedDirections[tile]);
    if !ok {
      return Ok(None);
    }
    r := Descend(tb, grid, point, rest, expected, tile);
  }

  /** Place `tile` at `point` on a copy of the grid and search on from there. */
  method Descend(tb: Tables, grid: TileGrid, point: Point, rest: seq<Point>,
                 expected: map<Point, seq<string>>, tile: Tile)
    returns (r: Result<Option<TileGrid>>)
    requires TablesOk(tb) && grid.Valid() && Shaped(grid.Snapshot()) && QueueOk(grid.Snapshot(), [point] + rest)
    requires Square(tile.grid) && !Used(grid.Snapshot(), tile.id) && tile in tb.expectedDirections
    requires Placeable(grid.Snapshot(), point, tile, tb.expectedDirections[tile])
    ensures match r
      case Err(m) => TryTile(tb, grid.Snapshot(), point, rest, expected, tile) == Err(m)
      case Ok(None) => TryTile(tb, grid.Snapshot(), point, rest, expected, tile) == Ok(None)
      case Ok(Some(g)) => g.Valid() && TryTile(tb, grid.Snapshot(), point, rest, expected, tile) == Ok(Some(g.Snapshot()))
    decreases Unset(grid.Snapshot()), 0
  {
    ghost var c := grid.Snapshot();
    RestStaysOk(c, point, tile, rest);
    PutShrinks(c, point, tile);
    ghost var c' := Put(c, point, Some(tile));
    ghost var next := Spread(c', point, tile, 0, rest, expected);
    TryTilePlaces(tb, c, point, rest, expected, tile);
    var myGrid := PlacedCopy(grid, point, tile);
    var q, exp := SpreadEdges(myGrid, point, tile, rest, expected);
    assert (q, exp) == next;
    r := Recurse(tb, myGrid, q, exp);
    assert grid.Snapshot() == c;
  }

  /** When the tile is unused and fits, `TryTile` is the search from the
      grid with the tile placed. */
  lemma TryTilePlaces(tb: Tables, c: Cells, p: Point, rest: seq<Point>, expected: map<Point, seq<string>>, t: Tile)
    requires TablesOk(tb) && Shaped(c) && QueueOk(c, [p] + rest) && Square(t.grid)
    requires !Used(c, t.id) && t in tb.expectedDirections && Placeable(c, p, t, tb.expectedDirections[t])
    ensures InGrid(|c|, p) && QueueOk(Put(c, p, Some(t)), rest)
    ensures var c' := Put(c, p, Some(t)); var next := Spread(c', p, t, 0, rest, expected);
      QueueOk(c', next.0) && TryTile(tb, c, p, rest, expected, t) == Search(tb, c', next.0, next.1)
  {
    RestStaysOk(c, p, t, rest);
  }

  /** `copy`, then `set` of one cell on the copy. */
  method PlacedCopy(grid: TileGrid, point: Point, tile: Tile) returns (g: TileGrid)
    requires grid.Valid() && Shaped(grid.Snapshot()) && grid.Contains(point) && Square(tile.grid)
    ensures fresh(g) && fresh(g.cells) && g.Valid() && Shaped(g.Snapshot())
    ensures g.Snapshot() == Put(grid.Snapshot(), point, Some(tile))
  {
    g := grid.Copy();
    g.Set(point, Some(tile));
  }

  /** The `directionEdges` loop after a placement. */
  method SpreadEdges(grid: TileGrid, point: Point, tile: Tile, rest: seq<Point>, expected: map<Point, seq<string>>)
    returns (q: seq<Point>, exp: map<Point, seq<string>>)
    requires grid.Valid() && Shaped(grid.Snapshot()) && Square(tile.grid) && QueueOk(grid.Snapshot(), rest)
    ensures (q, exp) == Spread(grid.Snapshot(), point, tile, 0, rest, expected)
  {
    ghost var c := grid.Snapshot();
    q, exp := rest, expected;
    var edges := Edges(tile);
    for k := 0 to 4
      invariant QueueOk(c, q)
      invariant Spread(c, point, tile, 0, rest, expected) == Spread(c, point, tile, k, q, exp)
    {
      var neighbour := FromPoint(Sides[k], point);
      if grid.Contains(neighbour) {
        var have := if neighbour in exp then exp[neighbour] else [];
        exp := exp[neighbour := AddNew(have, edges[k])];
        if !grid.IsSet(neighbour) {
          q := AddNew(q, neighbour);
        }
      }
    }
  }
}
