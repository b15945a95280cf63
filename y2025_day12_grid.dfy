/** 2025 day 12, the board: a frozen `Grid` value holding the occupied
    cells (the pieces and a two-cell wall around the rectangle), how many
    piece cells it holds, and the anchors still worth trying. */
module Y2025Day12Grid {
  import opened Common
  import opened Y2025Day12Shapes

  /** What a cell of `points` holds: the wall marker ':' or an atom id. */
  datatype Cell = Wall | Piece(id: int)

  /** `Grid`: width, height, occupied cells, the number of piece cells
      (`point_count`) and the open anchors. */
  datatype Grid = Grid(width: int, height: int, points: map<Point, Cell>, pointCount: int, open: set<Point>)

  // ---------------------------------------------------------------- walls and anchors

  /** The wall rows of a fresh grid: -2, -1, h and h+1, for x in -1..w. */
  predicate InWallRows(w: int, h: int, p: Point)
  {
    -1 <= p.x <= w && (p.y == -2 || p.y == -1 || p.y == h || p.y == h + 1)
  }

  /** The wall columns: -2, -1, w and w+1, for y in -1..h. */
  predicate InWallColumns(w: int, h: int, p: Point)
  {
    (p.x == -2 || p.x == -1 || p.x == w || p.x == w + 1) && -1 <= p.y <= h
  }

  predicate IsWall(w: int, h: int, p: Point)
  {
    InWallRows(w, h, p) || InWallColumns(w, h, p)
  }

  function Walls(w: int, h: int): set<Point>
  {
    (set x: int, y: int | -1 <= x <= w && y in {-2, -1, h, h + 1} :: Point(x, y)) +
    (set x: int, y: int | x in {-2, -1, w, w + 1} && -1 <= y <= h :: Point(x, y))
  }

  /** The given cells with the walls written over them. */
  function WithWalls(w: int, h: int, pts: map<Point, Cell>): map<Point, Cell>
  {
    map p | p in pts.Keys + Walls(w, h) :: if IsWall(w, h, p) then Wall else pts[p]
  }

  /** The anchors of a fresh grid: [0..w-2] x [0..h-2]. */
  function Anchors(w: int, h: int): set<Point>
  {
    set x: int, y: int | 0 <= x <= w - 2 && 0 <= y <= h - 2 :: Point(x, y)
  }

  /** After the row loop has written every column before `x`. */
  ghost predicate RowsDone(w: int, h: int, pts: map<Point, Cell>, ps: map<Point, Cell>, x: int)
  {
    (forall p :: p in ps <==> p in pts || (InWallRows(w, h, p) && p.x < x)) &&
    (forall p :: p in ps ==> ps[p] == if InWallRows(w, h, p) && p.x < x then Wall else pts[p])
  }

  /** After the column loop has written every row before `y`. */
  ghost predicate ColumnsDone(w: int, h: int, pts: map<Point, Cell>, ps: map<Point, Cell>, y: int)
  {
    (forall p :: p in ps <==> p in pts || InWallRows(w, h, p) || (InWallColumns(w, h, p) && p.y < y)) &&
    (forall p :: p in ps ==> ps[p] == if InWallRows(w, h, p) || (InWallColumns(w, h, p) && p.y < y) then Wall else pts[p])
  }

  function WriteRow(ps: map<Point, Cell>, h: int, x: int): map<Point, Cell>
  {
    ps[Point(x, -2) := Wall][Point(x, -1) := Wall][Point(x, h) := Wall][Point(x, h + 1) := Wall]
  }

  function WriteColumn(ps: map<Point, Cell>, w: int, y: int): map<Point, Cell>
  {
    ps[Point(-2, y) := Wall][Point(-1, y) := Wall][Point(w, y) := Wall][Point(w + 1, y) := Wall]
  }

  lemma RowStep(w: int, h: int, pts: map<Point, Cell>, ps: map<Point, Cell>, x: int)
    requires -1 <= x <= w && RowsDone(w, h, pts, ps, x)
    ensures RowsDone(w, h, pts, WriteRow(ps, h, x), x + 1)
  {
  }

  lemma ColumnStep(w: int, h: int, pts: map<Point, Cell>, ps: map<Point, Cell>, y: int)
    requires -1 <= y <= h && ColumnsDone(w, h, pts, ps, y)
    ensures ColumnsDone(w, h, pts, WriteColumn(ps, w, y), y + 1)
  {
  }

  /** The walls are exactly the cells `IsWall` names. */
  lemma WallsAre(w: int, h: int, p: Point)
    ensures p in Walls(w, h) <==> IsWall(w, h, p)
  {
    if InWallRows(w, h, p) {
      assert p == Point(p.x, p.y);
    } else if InWallColumns(w, h, p) {
      assert p == Point(p.x, p.y);
    }
  }

  lemma WallsDone(w: int, h: int, pts: map<Point, Cell>, ps: map<Point, Cell>)
    requires ColumnsDone(w, h, pts, ps, if h < -2 then -1 else h + 1)
    ensures ps == WithWalls(w, h, pts)
  {
    var want := WithWalls(w, h, pts);
    forall p
      ensures p in ps <==> p in want
      ensures p in ps ==> ps[p] == want[p]
    {
      WallsAre(w, h, p);
    }
  }

  /** The two write loops of `initialize` without a base grid. */
  method AddWalls(w: int, h: int, pts: map<Point, Cell>) returns (ps: map<Point, Cell>)
    ensures ps == WithWalls(w, h, pts)
  {
    ps := pts;
    var xEnd := if w < -2 then -1 else w + 1;
    var yEnd := if h < -2 then -1 else h + 1;
    for x := -1 to xEnd
      invariant RowsDone(w, h, pts, ps, x)
    {
      RowStep(w, h, pts, ps, x);
      ps := WriteRow(ps, h, x);
    }
    for y := -1 to yEnd
      invariant ColumnsDone(w, h, pts, ps, y)
    {
      ColumnStep(w, h, pts, ps, y);
      ps := WriteColumn(ps, w, y);
    }
    WallsDone(w, h, pts, ps);
  }

  // ---------------------------------------------------------------- counting cells

  /** The 3x3 block whose top-left corner is p, column by column, in the
      order `has_room?` visits it. */
  function Block(p: Point): seq<Point>
  {
    [Offset(p, 0, 0), Offset(p, 0, 1), Offset(p, 0, 2),
     Offset(p, 1, 0), Offset(p, 1, 1), Offset(p, 1, 2),
     Offset(p, 2, 0), Offset(p, 2, 1), Offset(p, 2, 2)]
  }

  /** The cells of the block with top-left corner p, as a set. */
  function BlockSet(p: Point): set<Point>
  {
    set x: int, y: int | p.x <= x <= p.x + 2 && p.y <= y <= p.y + 2 :: Point(x, y)
  }

  /** The cells of the block centred on p, as a set. */
  function Around(p: Point): set<Point>
  {
    set x: int, y: int | p.x - 1 <= x <= p.x + 1 && p.y - 1 <= y <= p.y + 1 :: Point(x, y)
  }

  predicate Distinct(cells: seq<Point>)
  {
    forall i, j :: 0 <= i < j < |cells| ==> cells[i] != cells[j]
  }

  /** How many of `cells` are keys. */
  function CountIn(cells: seq<Point>, keys: set<Point>): nat
  {
    if cells == [] then 0 else (if cells[0] in keys then 1 else 0) + CountIn(cells[1..], keys)
  }

  /** How many of `cells` are not keys. */
  function CountOut(cells: seq<Point>, keys: set<Point>): nat
  {
    if cells == [] then 0 else (if cells[0] in keys then 0 else 1) + CountOut(cells[1..], keys)
  }

  /** Dropping the head of distinct cells keeps them distinct, and the
      head is not among the rest. */
  lemma DistinctTail(cells: seq<Point>)
    requires Distinct(cells) && cells != []
    ensures Distinct(cells[1..]) && cells[0] !in cells[1..]
  {
    var rest := cells[1..];
    forall i, j | 0 <= i < j < |rest|
      ensures rest[i] != rest[j]
    {
      assert rest[i] == cells[i + 1] && rest[j] == cells[j + 1];
    }
    forall k | 0 <= k < |rest|
      ensures rest[k] != cells[0]
    {
      assert rest[k] == cells[k + 1];
    }
  }

  /** Adding a new element to a set adds one to exactly one of its parts
      in and out of `keys`. */
  lemma CardAdd(r: set<Point>, c: Point, keys: set<Point>)
    requires c !in r
    ensures |(r + {c}) * keys| == |r * keys| + (if c in keys then 1 else 0)
    ensures |(r + {c}) - keys| == |r - keys| + (if c in keys then 0 else 1)
  {
    if c in keys {
      assert (r + {c}) * keys == r * keys + {c};
      assert (r + {c}) - keys == r - keys;
    } else {
      assert (r + {c}) * keys == r * keys;
      assert (r + {c}) - keys == (r - keys) + {c};
    }
  }

  /** Over distinct cells the counts are the sizes of the cells in and out
      of `keys`. */
  lemma {:induction false} CountCard(cells: seq<Point>, keys: set<Point>)
    requires Distinct(cells)
    ensures CountIn(cells, keys) == |(set c | c in cells) * keys|
    ensures CountOut(cells, keys) == |(set c | c in cells) - keys|
  {
    if cells != [] {
      var rest := cells[1..];
      DistinctTail(cells);
      CountCard(rest, keys);
      var r := set c | c in rest;
      assert (set c | c in cells) == r + {cells[0]};
      CardAdd(r, cells[0], keys);
    }
  }

  /** The block holds the nine cells of its box, each once. */
  lemma BlockCells(p: Point)
    ensures |Block(p)| == 9 && Distinct(Block(p))
    ensures (set c | c in Block(p)) == BlockSet(p)
  {
    var b := Block(p);
    forall q | q in BlockSet(p)
      ensures q in b
    {
      assert b[3 * (q.x - p.x) + (q.y - p.y)] == q;
    }
  }

  /** The neighbours are the nine cells of `Around`. */
  lemma NeighborCells(p: Point)
    ensures Distinct(Neighbors(p))
    ensures (set c | c in Neighbors(p)) == Around(p)
  {
    NeighborsBlock(p);
    forall q | q in Around(p)
      ensures q in Neighbors(p)
    {
      assert Adjacent(p, q);
    }
  }

  // ---------------------------------------------------------------- room and pruning

  /** `Grid#has_room?`: p is an anchor whose block lies inside the
      rectangle, and at least `needed` cells of that block are free. */
  predicate HasRoom(w: int, h: int, points: map<Point, Cell>, p: Point, needed: int)
  {
    p.x >= 0 && p.y >= 0 && p.x < w - 2 && p.y < h - 2 && needed <= CountOut(Block(p), points.Keys)
  }

  /** `has_room?` counts the free cells of the block. */
  lemma HasRoomFree(w: int, h: int, points: map<Point, Cell>, p: Point, needed: int)
    ensures HasRoom(w, h, points, p, needed) <==>
      0 <= p.x < w - 2 && 0 <= p.y < h - 2 && needed <= |BlockSet(p) - points.Keys|
  {
    BlockCells(p);
    CountCard(Block(p), points.Keys);
  }

  /** p lies within two cells of the box spanned by `keys`. */
  predicate Near(p: Point, keys: set<Point>)
  {
    (exists k :: k in keys && k.x <= p.x + 2) && (exists k :: k in keys && p.x <= k.x + 2) &&
    (exists k :: k in keys && k.y <= p.y + 2) && (exists k :: k in keys && p.y <= k.y + 2)
  }

  /** The open anchors left after new cells `keys`: those near the new
      cells that no longer have room for seven cells are dropped. */
  function Pruned(w: int, h: int, points: map<Point, Cell>, op: set<Point>, keys: set<Point>): set<Point>
  {
    set p | p in op && !(Near(p, keys) && !HasRoom(w, h, points, p, 7))
  }

  /** Pruning drops exactly the open anchors near the new cells that lack
      room; with no new cells nothing is dropped. */
  lemma PrunedFacts(w: int, h: int, points: map<Point, Cell>, op: set<Point>, keys: set<Point>)
    ensures Pruned(w, h, points, op, keys) <= op
    ensures forall p :: p in op ==>
      (p !in Pruned(w, h, points, op, keys) <==> Near(p, keys) && !HasRoom(w, h, points, p, 7))
    ensures forall p :: p in Pruned(w, h, points, op, keys) && Near(p, keys) ==> HasRoom(w, h, points, p, 7)
    ensures keys == {} ==> Pruned(w, h, points, op, keys) == op
  {
  }

  /** The bounding box of the new cells: what the two `minmax` calls of
      `initialize` are meant to find, as `minmax_by` would. The calls as
      written are `ComparatorMinMax`. */
  predicate IsBox(keys: set<Point>, lox: int, hix: int, loy: int, hiy: int)
  {
    (forall k :: k in keys ==> lox <= k.x <= hix && loy <= k.y <= hiy) &&
    (exists k :: k in keys && k.x == lox) && (exists k :: k in keys && k.x == hix) &&
    (exists k :: k in keys && k.y == loy) && (exists k :: k in keys && k.y == hiy)
  }

  /** The two `minmax` calls of `initialize`, read as the least and
      largest x and y of the new cells. */
  method Bounds(keys: set<Point>) returns (lox: int, hix: int, loy: int, hiy: int)
    requires keys != {}
    ensures IsBox(keys, lox, hix, loy, hiy)
  {
    var k0 :| k0 in keys;
    lox, hix, loy, hiy := k0.x, k0.x, k0.y, k0.y;
    ghost var a, b, c, d := k0, k0, k0, k0;
    var rest := keys - {k0};
    while rest != {}
      invariant rest <= keys
      invariant forall k :: k in keys - rest ==> lox <= k.x <= hix && loy <= k.y <= hiy
      invariant a in keys && a.x == lox && b in keys && b.x == hix
      invariant c in keys && c.y == loy && d in keys && d.y == hiy
      decreases |rest|
    {
      var k :| k in rest;
      if k.x < lox { lox, a := k.x, k; }
      if k.x > hix { hix, b := k.x, k; }
      if k.y < loy { loy, c := k.y, k; }
      if k.y > hiy { hiy, d := k.y, k; }
      rest := rest - {k};
    }
  }

  /** Near the keys means inside their box grown by two. */
  lemma NearBox(p: Point, keys: set<Point>, lox: int, hix: int, loy: int, hiy: int)
    requires IsBox(keys, lox, hix, loy, hiy)
    ensures Near(p, keys) <==> lox - 2 <= p.x <= hix + 2 && loy - 2 <= p.y <= hiy + 2
  {
  }

  /** The cells the pruning loops of `initialize` have visited, column by
      column, before (x, y). */
  predicate Swept(q: Point, lox: int, loy: int, hiy: int, x: int, y: int)
  {
    (lox - 2 <= q.x < x && loy - 2 <= q.y <= hiy + 2) || (q.x == x && loy - 2 <= q.y < y)
  }

  ghost predicate SweptTo(w: int, h: int, points: map<Point, Cell>, op: set<Point>, r: set<Point>,
                          lox: int, loy: int, hiy: int, x: int, y: int)
  {
    forall q :: q in r <==> q in op && !(Swept(q, lox, loy, hiy, x, y) && !HasRoom(w, h, points, q, 7))
  }

  lemma SweepDone(w: int, h: int, points: map<Point, Cell>, op: set<Point>, r: set<Point>, keys: set<Point>,
                  lox: int, hix: int, loy: int, hiy: int)
    requires IsBox(keys, lox, hix, loy, hiy)
    requires SweptTo(w, h, points, op, r, lox, loy, hiy, hix + 3, loy - 2)
    ensures r == Pruned(w, h, points, op, keys)
  {
    forall q
      ensures Near(q, keys) <==> Swept(q, lox, loy, hiy, hix + 3, loy - 2)
    {
      NearBox(q, keys, lox, hix, loy, hiy);
    }
  }

  /** The pruning step of `initialize`. */
  method PruneOpen(w: int, h: int, points: map<Point, Cell>, op: set<Point>, keys: set<Point>) returns (r: set<Point>)
    ensures r == Pruned(w, h, points, op, keys)
  {
    if keys == {} {
      PrunedFacts(w, h, points, op, keys);
      return op;
    }
    var lox, hix, loy, hiy := Bounds(keys);
    r := op;
    for x := lox - 2 to hix + 3
      invariant SweptTo(w, h, points, op, r, lox, loy, hiy, x, loy - 2)
    {
      for y := loy - 2 to hiy + 3
        invariant SweptTo(w, h, points, op, r, lox, loy, hiy, x, y)
      {
        var p := Point(x, y);
        if p in r && !HasRoom(w, h, points, p, 7) {
          r := r - {p};
        }
      }
    }
    SweepDone(w, h, points, op, r, keys, lox, hix, loy, hiy);
  }

  // ---------------------------------------------------------------- minmax as written

  /** The state of `Enumerable#minmax` with a comparator block: the least
      and greatest cell so far (none before the first pair is compared)
      and a cell still waiting for its partner. */
  datatype MinMaxState = MinMaxState(lo: Option<Point>, hi: Option<Point>, last: Option<Point>)

  /** The comparator that `{|p| p.x}` (or `{|p| p.y}`) becomes: Ruby yields
      two cells, the block binds only the first, and the sign of that
      cell's own coordinate is read as the comparison. */
  function Cmp(a: Point, byX: bool): int
  {
    var v := if byX then a.x else a.y;
    if v < 0 then -1 else if v > 0 then 1 else 0
  }

  /** Offering a candidate least cell i and greatest cell j. */
  function Update(s: MinMaxState, i: Point, j: Point, byX: bool): MinMaxState
  {
    if s.lo.None? then MinMaxState(Some(i), Some(j), None)
    else
      MinMaxState(if Cmp(i, byX) < 0 then Some(i) else s.lo,
                  if Cmp(j, byX) > 0 then Some(j) else s.hi, None)
  }

  /** One yielded cell: the first of a pair waits; the second is compared
      with it, the one ordered lower offered as least, the other as
      greatest. */
  function Step(s: MinMaxState, i: Point, byX: bool): MinMaxState
  {
    if s.last.None? then MinMaxState(s.lo, s.hi, Some(i))
    else
      var j := s.last.value;
      var n := Cmp(j, byX);
      if n == 0 then Update(s, j, j, byX)
      else if n < 0 then Update(s, j, i, byX)
      else Update(s, i, j, byX)
  }

  function MinMaxFrom(keys: seq<Point>, s: MinMaxState, byX: bool): MinMaxState
    decreases |keys|
  {
    if keys == [] then s else MinMaxFrom(keys[1..], Step(s, keys[0], byX), byX)
  }

  /** `keys.minmax {|p| p.x}` (byX) or `{|p| p.y}`, over the new cells in
      the order they were inserted; an unpaired last cell is offered as
      both least and greatest. */
  function ComparatorMinMax(keys: seq<Point>, byX: bool): Option<(Point, Point)>
  {
    var s := MinMaxFrom(keys, MinMaxState(None, None, None), byX);
    var t := if s.last.Some? then Update(s, s.last.value, s.last.value, byX) else s;
    if t.lo.Some? && t.hi.Some? then Some((t.lo.value, t.hi.value)) else None
  }

  /** Once a pair was compared, a comparator that reads every cell as
      greater never replaces the least cell. */
  lemma {:induction false} PositiveKeepsLo(keys: seq<Point>, s: MinMaxState, byX: bool)
    requires s.lo.Some? && s.hi.Some?
    requires forall k :: k in keys ==> Cmp(k, byX) > 0
    requires s.last.Some? ==> Cmp(s.last.value, byX) > 0
    ensures var t := MinMaxFrom(keys, s, byX);
      t.lo == s.lo && t.hi.Some? && (t.last.Some? ==> Cmp(t.last.value, byX) > 0)
    decreases |keys|
  {
    if keys != [] {
      var s' := Step(s, keys[0], byX);
      assert s'.lo == s.lo;
      PositiveKeepsLo(keys[1..], s', byX);
    }
  }

  /** As written, when every new cell has a positive coordinate, the
      "least" cell `minmax` returns is always the second new cell, whatever
      the coordinates are. */
  lemma ComparatorLoIsSecond(keys: seq<Point>, byX: bool)
    requires |keys| >= 2 && forall k :: k in keys ==> Cmp(k, byX) > 0
    ensures ComparatorMinMax(keys, byX).Some? && ComparatorMinMax(keys, byX).value.0 == keys[1]
  {
    var s0 := MinMaxState(None, None, None);
    var s2 := Step(Step(s0, keys[0], byX), keys[1], byX);
    assert s2 == MinMaxState(Some(keys[1]), Some(keys[0]), None);
    assert MinMaxFrom(keys, s0, byX) == MinMaxFrom(keys[2..], s2, byX) by {
      assert keys[1..][1..] == keys[2..];
    }
    PositiveKeepsLo(keys[2..], s2, byX);
  }

  /** The range the loops of `initialize` sweep as written: from the x of
      the first cell `minmax {|p| p.x}` returns, less two, to the x of the
      second plus two, and likewise for y. */
  predicate SweptAsWritten(p: Point, keys: seq<Point>)
  {
    var bX := ComparatorMinMax(keys, true);
    var bY := ComparatorMinMax(keys, false);
    bX.Some? && bY.Some? &&
    bX.value.0.x - 2 <= p.x <= bX.value.1.x + 2 && bY.value.0.y - 2 <= p.y <= bY.value.1.y + 2
  }

  /** The anchors left by the pruning of `initialize` as written. */
  function PrunedAsWritten(w: int, h: int, points: map<Point, Cell>, op: set<Point>, keys: seq<Point>): set<Point>
  {
    set p | p in op && !(SweptAsWritten(p, keys) && !HasRoom(w, h, points, p, 7))
  }

  /** The two cells `minmax {|p| p.x}` returns for the new cells (5, 5)
      and (6, 5), inserted in that order: (6, 5) as least, (5, 5) as
      greatest. */
  lemma PairMinMax()
    ensures ComparatorMinMax([Point(5, 5), Point(6, 5)], true) == Some((Point(6, 5), Point(5, 5)))
    ensures ComparatorMinMax([Point(5, 5), Point(6, 5)], false) == Some((Point(6, 5), Point(5, 5)))
  {
    var keys := [Point(5, 5), Point(6, 5)];
    assert keys[1..][1..] == [];
  }

  /** The cells (3, 5), (4, 5), (5, 5) and (6, 5) leave six free cells in
      the block of the anchor (3, 4), too few for seven. */
  lemma SixFree(points: map<Point, Cell>)
    requires points.Keys == {Point(3, 5), Point(4, 5), Point(5, 5), Point(6, 5)}
    ensures CountOut(Block(Point(3, 4)), points.Keys) == 6
  {
    var b := Block(Point(3, 4));
    var ks := points.Keys;
    assert b == [Point(3, 4), Point(3, 5), Point(3, 6), Point(4, 4), Point(4, 5), Point(4, 6),
                 Point(5, 4), Point(5, 5), Point(5, 6)];
    assert CountOut(b[9..], ks) == 0;
    assert CountOut(b[8..], ks) == 1;
    assert CountOut(b[7..], ks) == 1;
    assert CountOut(b[6..], ks) == 2;
    assert CountOut(b[5..], ks) == 3;
    assert CountOut(b[4..], ks) == 3;
    assert CountOut(b[3..], ks) == 4;
    assert CountOut(b[2..], ks) == 5;
    assert CountOut(b[1..], ks) == 5;
  }

  /** On a base holding (3, 5) and (4, 5), a merge adding (5, 5) and then
      (6, 5): `minmax {|p| p.x}` gives (6, 5) and (5, 5), so the loops sweep
      x from 4 to 7 and keep the anchor (3, 4), which has only six free
      cells in its block; the box of the new cells, x from 5 to 6, grown by
      two reaches it, and `Pruned` drops it. */
  lemma MinMaxSweepMisses(points: map<Point, Cell>)
    requires points.Keys == {Point(3, 5), Point(4, 5), Point(5, 5), Point(6, 5)}
    ensures Point(3, 4) in PrunedAsWritten(10, 10, points, {Point(3, 4)}, [Point(5, 5), Point(6, 5)])
    ensures Point(3, 4) !in Pruned(10, 10, points, {Point(3, 4)}, {Point(5, 5), Point(6, 5)})
  {
    PairMinMax();
    assert !SweptAsWritten(Point(3, 4), [Point(5, 5), Point(6, 5)]);
    SixFree(points);
    assert Near(Point(3, 4), {Point(5, 5), Point(6, 5)});
  }

  // ---------------------------------------------------------------- building grids

  /** A grid made without a base: the given cells inside fresh walls, the
      anchors of the whole rectangle pruned around the given cells. */
  function Fresh(w: int, h: int, pts: map<Point, Cell>): Grid
  {
    var ps := WithWalls(w, h, pts);
    Grid(w, h, ps, |pts|, Pruned(w, h, ps, Anchors(w, h), pts.Keys))
  }

  /** A grid made on a base: the base's cells plus the given ones, the
      base's anchors pruned around the given cells. */
  function Derived(base: Grid, w: int, h: int, pts: map<Point, Cell>): Grid
  {
    var ps := base.points + pts;
    Grid(w, h, ps, base.pointCount + |pts|, Pruned(w, h, ps, base.open, pts.Keys))
  }

  /** The copy loop of `initialize` has added every given cell outside
      `todo` to the base's cells. */
  ghost predicate Copied(base: map<Point, Cell>, pts: map<Point, Cell>, ps: map<Point, Cell>, todo: set<Point>)
  {
    (forall p :: p in ps <==> p in base || (p in pts && p !in todo)) &&
    (forall p :: p in ps ==> ps[p] == if p in pts && p !in todo then pts[p] else base[p])
  }

  lemma CopyDone(base: map<Point, Cell>, pts: map<Point, Cell>, ps: map<Point, Cell>)
    requires Copied(base, pts, ps, {})
    ensures ps == base + pts
  {
  }

  /** `Grid.new`: without a base, `Fresh`; with a base, `Derived`, unless
      a given cell is already occupied, which raises a collision. */
  method Build(w: int, h: int, pts: map<Point, Cell>, base: Option<Grid>) returns (r: Result<Grid>)
    ensures base.None? ==> r == Ok(Fresh(w, h, pts))
    ensures base.Some? ==> (r.Err? <==> pts.Keys * base.value.points.Keys != {})
    ensures base.Some? && r.Ok? ==> r.value == Derived(base.value, w, h, pts)
    ensures r.Err? ==> r.msg == "Collision"
  {
    var ps: map<Point, Cell>;
    var count: int;
    var op: set<Point>;
    if base.Some? {
      ps := base.value.points;
      var todo := pts.Keys;
      while todo != {}
        invariant todo <= pts.Keys
        invariant Copied(base.value.points, pts, ps, todo)
        invariant (pts.Keys - todo) * base.value.points.Keys == {}
        decreases |todo|
      {
        var k :| k in todo;
        if k in ps {
          return Err("Collision");
        }
        ps := ps[k := pts[k]];
        todo := todo - {k};
      }
      CopyDone(base.value.points, pts, ps);
      count := base.value.pointCount + |pts|;
      op := base.value.open;
    } else {
      ps := AddWalls(w, h, pts);
      count := |pts|;
      op := Anchors(w, h);
    }
    op := PruneOpen(w, h, ps, op, pts.Keys);
    r := Ok(Grid(w, h, ps, count, op));
  }

  /** A fresh grid walls off the two rings around the rectangle, keeps the
      other given cells and counts every given cell; its anchors are those
      of the rectangle that survived pruning, all of them when no cell was
      given. */
  lemma FreshShape(w: int, h: int, pts: map<Point, Cell>)
    ensures var g := Fresh(w, h, pts);
      g.width == w && g.height == h && g.pointCount == |pts| &&
      g.points.Keys == pts.Keys + Walls(w, h) &&
      (forall p :: IsWall(w, h, p) ==> p in g.points && g.points[p] == Wall) &&
      (forall p :: p in pts && !IsWall(w, h, p) ==> g.points[p] == pts[p]) &&
      g.open <= Anchors(w, h) &&
      (pts == map[] ==> g.open == Anchors(w, h) && OpenSize(g) == w * h)
  {
    forall p | IsWall(w, h, p)
      ensures p in Walls(w, h)
    {
      WallsAre(w, h, p);
    }
    PrunedFacts(w, h, WithWalls(w, h, pts), Anchors(w, h), pts.Keys);
  }

  // ---------------------------------------------------------------- merging atoms

  /** The cells of `s` moved by (dx, dy). */
  function Shifted(s: set<Point>, dx: int, dy: int): set<Point>
  {
    set p | p in s :: Offset(p, dx, dy)
  }

  lemma ShiftedMembers(s: set<Point>, dx: int, dy: int)
    ensures forall q :: q in Shifted(s, dx, dy) <==> Offset(q, -dx, -dy) in s
    ensures |Shifted(s, dx, dy)| == |s|
  {
    forall q | Offset(q, -dx, -dy) in s
      ensures q in Shifted(s, dx, dy)
    {
      assert Offset(Offset(q, -dx, -dy), dx, dy) == q;
    }
    var f: Point -> Point := p => Offset(p, dx, dy);
    ImageCard(s, f);
    assert (set p | p in s :: f(p)) == Shifted(s, dx, dy);
  }

  /** The cells an atom covers once placed at (dx, dy), each holding the
      atom's number. */
  function Placement(a: Atom, dx: int, dy: int): map<Point, Cell>
  {
    map q | q in Shifted(a.points, dx, dy) :: Piece(a.id)
  }

  /** No cell of the placed atom is already occupied. */
  predicate Fits(g: Grid, a: Atom, dx: int, dy: int)
  {
    forall p :: p in a.points ==> Offset(p, dx, dy) !in g.points
  }

  /** `Grid#merge_with`: nil when a cell of the placed atom is occupied,
      else the grid derived from g by the placement. */
  function Merge(g: Grid, a: Atom, dx: int, dy: int): Option<Grid>
  {
    if Fits(g, a, dx, dy) then Some(Derived(g, g.width, g.height, Placement(a, dx, dy))) else None
  }

  ghost predicate Placed(a: Atom, dx: int, dy: int, pts: map<Point, Cell>, todo: set<Point>)
  {
    (forall q :: q in pts <==> Offset(q, -dx, -dy) in a.points - todo) &&
    (forall q :: q in pts ==> pts[q] == Piece(a.id))
  }

  lemma PlacedDone(a: Atom, dx: int, dy: int, pts: map<Point, Cell>)
    requires Placed(a, dx, dy, pts, {})
    ensures pts == Placement(a, dx, dy)
  {
    ShiftedMembers(a.points, dx, dy);
  }

  method MergeWith(g: Grid, a: Atom, dx: int, dy: int) returns (r: Option<Grid>)
    ensures r == Merge(g, a, dx, dy)
  {
    var pts: map<Point, Cell> := map[];
    var todo := a.points;
    while todo != {}
      invariant todo <= a.points
      invariant Placed(a, dx, dy, pts, todo)
      invariant forall p :: p in a.points - todo ==> Offset(p, dx, dy) !in g.points
      decreases |todo|
    {
      var p :| p in todo;
      var o := Offset(p, dx, dy);
      if o in g.points {
        return None;
      }
      assert Offset(o, -dx, -dy) == p;
      pts := pts[o := Piece(a.id)];
      todo := todo - {p};
    }
    PlacedDone(a, dx, dy, pts);
    ShiftedMembers(a.points, dx, dy);
    var b := Build(g.width, g.height, pts, Some(g));
    assert pts.Keys * g.points.Keys == {};
    r := Some(b.value);
  }

  /** `Grid#open_size`. */
  function OpenSize(g: Grid): int
  {
    g.width * g.height - g.pointCount
  }

  /** A merge succeeds exactly when the atom fits. It keeps the size and
      every old cell, adds the atom's cells under its number, counts them,
      and so shrinks the free area by the atom's size; anchors are only
      dropped, and only those near the atom that lack room. */
  lemma MergeFacts(g: Grid, a: Atom, dx: int, dy: int)
    ensures Merge(g, a, dx, dy).Some? <==> Fits(g, a, dx, dy)
    ensures Merge(g, a, dx, dy).Some? ==> var n := Merge(g, a, dx, dy).value;
      n.width == g.width && n.height == g.height &&
      n.points.Keys == g.points.Keys + Shifted(a.points, dx, dy) &&
      (forall p :: p in g.points ==> n.points[p] == g.points[p]) &&
      (forall p :: p in a.points ==> n.points[Offset(p, dx, dy)] == Piece(a.id)) &&
      n.pointCount == g.pointCount + |a.points| &&
      OpenSize(n) == OpenSize(g) - |a.points| &&
      n.open <= g.open &&
      (forall q :: q in g.open && q !in n.open ==>
         Near(q, Shifted(a.points, dx, dy)) && !HasRoom(n.width, n.height, n.points, q, 7))
  {
    if Fits(g, a, dx, dy) {
      var pl := Placement(a, dx, dy);
      PlacementFacts(a, dx, dy);
      FitsDisjoint(g, a, dx, dy);
      PrunedFacts(g.width, g.height, g.points + pl, g.open, pl.Keys);
    }
  }

  /** A placement covers the moved cells, one per atom cell, each under the
      atom's number. */
  lemma PlacementFacts(a: Atom, dx: int, dy: int)
    ensures Placement(a, dx, dy).Keys == Shifted(a.points, dx, dy)
    ensures |Placement(a, dx, dy)| == |a.points|
    ensures forall p :: p in a.points ==>
      (Offset(p, dx, dy) in Placement(a, dx, dy) && Placement(a, dx, dy)[Offset(p, dx, dy)] == Piece(a.id))
  {
    ShiftedMembers(a.points, dx, dy);
    assert Placement(a, dx, dy).Keys == Shifted(a.points, dx, dy);
  }

  /** When the atom fits, its placement avoids every occupied cell. */
  lemma FitsDisjoint(g: Grid, a: Atom, dx: int, dy: int)
    requires Fits(g, a, dx, dy)
    ensures forall p :: p in g.points ==> p !in Placement(a, dx, dy)
  {
    ShiftedMembers(a.points, dx, dy);
    forall p | p in g.points
      ensures p !in Placement(a, dx, dy)
    {
      assert Offset(Offset(p, -dx, -dy), dx, dy) == p;
    }
  }

  /** `Grid#worth_trying?`: an anchor inside the rectangle whose 3x3
      neighbourhood is partly, but not wholly, occupied by at least three
      cells. The atom is not consulted. */
  predicate WorthTrying(g: Grid, p: Point, a: Atom)
  {
    if p.x < 0 || p.y < 0 || p.x > g.width - 3 || p.y > g.height - 3 then false
    else 2 < CountIn(Neighbors(p), g.points.Keys) < 9
  }

  lemma WorthTryingMeans(g: Grid, p: Point, a: Atom)
    ensures WorthTrying(g, p, a) <==>
      0 <= p.x <= g.width - 3 && 0 <= p.y <= g.height - 3 && 2 < |Around(p) * g.points.Keys| < 9
  {
    NeighborCells(p);
    CountCard(Neighbors(p), g.points.Keys);
  }
}
