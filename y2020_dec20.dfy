/** 2020 day 20: square tiles of pixels, matched along their edges after
    rotations and flips, assembled into a grid, stitched into one image and
    searched for a pixel pattern. This module holds the geometry: sides,
    patterns and tiles; `y2020_dec20_grid.dfy` holds the grid and the two
    parts. */
module Y2020Dec20 {
  import opened Common

  /** A (row, column) pair. */
  type Point = (int, int)

  function Plus(p: Point, q: Point): Point { (p.0 + q.0, p.1 + q.1) }

  /** `a until b`: the points of the rectangle from `a` (inclusive) to `b`
      (exclusive), row by row. */
  function Until(a: Point, b: Point): (ps: seq<Point>)
    ensures forall p :: p in ps <==> a.0 <= p.0 < b.0 && a.1 <= p.1 < b.1
    decreases b.0 - a.0
  {
    if a.0 >= b.0 then [] else RowPoints(a.0, a.1, b.1) + Until((a.0 + 1, a.1), b)
  }

  function RowPoints(y: int, x0: int, x1: int): (ps: seq<Point>)
    ensures forall p :: p in ps <==> p.0 == y && x0 <= p.1 < x1
    decreases x1 - x0
  {
    if x0 >= x1 then [] else [(y, x0)] + RowPoints(y, x0 + 1, x1)
  }

  // ---------------------------------------------------------------- sides

  datatype Side = North | East | South | West

  /** `Side.values()`, in declaration order. */
  const Sides: seq<Side> := [North, East, South, West]

  function Index(s: Side): nat
  {
    match s
    case North => 0
    case East => 1
    case South => 2
    case West => 3
  }

  function Opposite(s: Side): Side
  {
    match s
    case North => South
    case East => West
    case South => North
    case West => East
  }

  /** The neighbouring point on side `s`; rows grow southwards. */
  function FromPoint(s: Side, p: Point): Point
  {
    match s
    case North => (p.0 - 1, p.1)
    case East => (p.0, p.1 + 1)
    case South => (p.0 + 1, p.1)
    case West => (p.0, p.1 - 1)
  }

  /** The opposite is another side, two places further round; stepping to a
      side and back from the opposite side is no move at all. */
  lemma SideLaws(s: Side, p: Point)
    ensures Opposite(Opposite(s)) == s && Opposite(s) != s
    ensures Index(Opposite(s)) == (Index(s) + 2) % 4 && Sides[Index(s)] == s
    ensures FromPoint(Opposite(s), FromPoint(s, p)) == p
    ensures Abs(FromPoint(s, p).0 - p.0) + Abs(FromPoint(s, p).1 - p.1) == 1
  {
  }

  // -------------------------------------------------------------- patterns

  /** A `PixelPattern`: its origin and maximum corner are computed on
      construction, which fails for an empty list of points. */
  type PixelPattern = ps: seq<Point> | ps != [] witness [(0, 0)]

  function Firsts(ps: seq<Point>): (r: seq<int>)
    ensures |r| == |ps|
  {
    seq(|ps|, i requires 0 <= i < |ps| => ps[i].0)
  }

  function Seconds(ps: seq<Point>): (r: seq<int>)
    ensures |r| == |ps|
  {
    seq(|ps|, i requires 0 <= i < |ps| => ps[i].1)
  }

  /** `minOrNull` and `maxOrNull` of a non-empty list. */
  function Least(s: seq<int>): int
    requires s != []
  {
    if |s| == 1 then s[0] else var m := Least(s[1..]); if s[0] < m then s[0] else m
  }

  function Greatest(s: seq<int>): int
    requires s != []
  {
    if |s| == 1 then s[0] else var m := Greatest(s[1..]); if s[0] > m then s[0] else m
  }

  /** The least element is an element, and no element is smaller; the
      greatest likewise. */
  lemma {:induction false} Extremes(s: seq<int>)
    requires s != []
    ensures Least(s) in s && forall k :: 0 <= k < |s| ==> Least(s) <= s[k]
    ensures Greatest(s) in s && forall k :: 0 <= k < |s| ==> s[k] <= Greatest(s)
  {
    if |s| > 1 {
      Extremes(s[1..]);
      assert forall k :: 1 <= k < |s| ==> s[k] == s[1..][k - 1];
    }
  }

  function Origin(p: PixelPattern): Point { (Least(Firsts(p)), Least(Seconds(p))) }

  function MaxCorner(p: PixelPattern): Point { (Greatest(Firsts(p)), Greatest(Seconds(p))) }

  function Shifted(p: PixelPattern, o: Point): PixelPattern
  {
    seq(|p|, k requires 0 <= k < |p| => Plus(p[k], o))
  }

  function AddAll(s: seq<int>, c: int): (r: seq<int>)
    ensures |r| == |s|
  {
    seq(|s|, i requires 0 <= i < |s| => s[i] + c)
  }

  /** Adding a constant to every element moves the extremes by that
      constant. */
  lemma {:induction false} AddAllExtremes(s: seq<int>, c: int)
    requires s != []
    ensures AddAll(s, c) != []
    ensures Least(AddAll(s, c)) == Least(s) + c && Greatest(AddAll(s, c)) == Greatest(s) + c
  {
    if |s| > 1 {
      assert AddAll(s, c)[1..] == AddAll(s[1..], c);
      AddAllExtremes(s[1..], c);
    }
  }

  /** Shifting a pattern shifts its bounding box. */
  lemma ShiftedCorners(p: PixelPattern, o: Point)
    ensures Origin(Shifted(p, o)) == Plus(Origin(p), o)
    ensures MaxCorner(Shifted(p, o)) == Plus(MaxCorner(p), o)
  {
    assert Firsts(Shifted(p, o)) == AddAll(Firsts(p), o.0);
    assert Seconds(Shifted(p, o)) == AddAll(Seconds(p), o.1);
    AddAllExtremes(Firsts(p), o.0);
    AddAllExtremes(Seconds(p), o.1);
  }

  /** Two shifts are one shift by the sum. */
  lemma ShiftedTwice(p: PixelPattern, a: Point, b: Point)
    ensures Shifted(Shifted(p, a), b) == Shifted(p, Plus(a, b))
  {
    assert forall k :: 0 <= k < |p| ==> Shifted(Shifted(p, a), b)[k] == Shifted(p, Plus(a, b))[k];
  }

  /** The columns of a line holding '#', left to right. */
  function HashColumns(line: string): (cs: seq<int>)
    ensures forall c :: c in cs <==> 0 <= c < |line| && line[c] == '#'
  {
    if line == [] then []
    else HashColumns(line[..|line| - 1]) + (if line[|line| - 1] == '#' then [|line| - 1] else [])
  }

  function RowOf(row: int, cs: seq<int>): (ps: seq<Point>)
    ensures forall p :: p in ps <==> p.0 == row && p.1 in cs
  {
    if cs == [] then [] else [(row, cs[0])] + RowOf(row, cs[1..])
  }

  /** The '#' positions of the lines, row by row. */
  function ArtPoints(lines: seq<string>): (ps: seq<Point>)
    ensures forall p :: p in ps <==>
      0 <= p.0 < |lines| && 0 <= p.1 < |lines[p.0]| && lines[p.0][p.1] == '#'
  {
    if lines == [] then []
    else
      var n := |lines| - 1;
      var ps := ArtPoints(lines[..n]) + RowOf(n, HashColumns(lines[n]));
      assert forall p :: p in ArtPoints(lines[..n]) ==> p.0 < n && lines[..n][p.0] == lines[p.0];
      ps
  }

  /** `PixelPattern.parse`: the '#' positions of the lines of the ASCII art;
      art without a '#' fails the construction. */
  function ParsePattern(art: string): (r: Result<PixelPattern>)
    ensures r.Err? <==> forall k :: 0 <= k < |SplitOn(art, '\n')| ==> '#' !in SplitOn(art, '\n')[k]
    ensures r.Ok? ==> forall p :: p in r.value <==>
      var lines := SplitOn(art, '\n');
      0 <= p.0 < |lines| && 0 <= p.1 < |lines[p.0]| && lines[p.0][p.1] == '#'
  {
    var lines := SplitOn(art, '\n');
    var ps := ArtPoints(lines);
    if ps == [] then
      assert forall k :: 0 <= k < |lines| ==> '#' !in lines[k] by {
        forall k, c | 0 <= k < |lines| && 0 <= c < |lines[k]| ensures lines[k][c] != '#' {
          assert (k, c) !in ps;
        }
      }
      Err("IllegalStateException")
    else
      var q := ps[0];
      assert q in ps && lines[q.0][q.1] == '#';
      var pattern: PixelPattern := ps;
      Ok(pattern)
  }

  // ----------------------------------------------------------------- tiles

  datatype Tile = Tile(id: int, grid: seq<seq<bool>>)

  /** A non-empty grid whose every row is as long as the grid is high. */
  predicate Square(g: seq<seq<bool>>)
  {
    g != [] && forall r :: 0 <= r < |g| ==> |g[r]| == |g|
  }

  function Size(t: Tile): nat { |t.grid| }

  /** `toEdge`: '#' for a set pixel and '.' for a clear one. */
  function EdgeText(bs: seq<bool>): string
  {
    seq(|bs|, i requires 0 <= i < |bs| => if bs[i] then '#' else '.')
  }

  /** Equal edge texts come from equal pixel rows. */
  lemma EdgeTextInjective(a: seq<bool>, b: seq<bool>)
    requires EdgeText(a) == EdgeText(b)
    ensures a == b
  {
    assert forall i :: 0 <= i < |a| ==> (a[i] <==> EdgeText(a)[i] == '#');
  }

  function Column(g: seq<seq<bool>>, j: nat): seq<bool>
    requires forall r :: 0 <= r < |g| ==> j < |g[r]|
  {
    seq(|g|, i requires 0 <= i < |g| => g[i][j])
  }

  /** `edges`: the top row, the right column, the bottom row and the left
      column, each read top to bottom or left to right, indexed by
      `Index` of their side. */
  function Edges(t: Tile): (es: seq<string>)
    requires Square(t.grid)
    ensures |es| == 4
  {
    var g := t.grid;
    var n := |g|;
    [EdgeText(g[0]), EdgeText(Column(g, n - 1)), EdgeText(g[n - 1]), EdgeText(Column(g, 0))]
  }

  /** Each edge holds one character per pixel along its side. */
  lemma EdgesMeaning(t: Tile)
    requires Square(t.grid)
    ensures var n := Size(t); var e := Edges(t);
      (forall k :: 0 <= k < 4 ==> |e[k]| == n) &&
      (forall j :: 0 <= j < n ==>
        (e[Index(North)][j] == '#' <==> t.grid[0][j]) &&
        (e[Index(East)][j] == '#' <==> t.grid[j][n - 1]) &&
        (e[Index(South)][j] == '#' <==> t.grid[n - 1][j]) &&
        (e[Index(West)][j] == '#' <==> t.grid[j][0]))
  {
  }

  /** Side `s` of `t` lines up with the opposite side of `o`. */
  predicate Fits(t: Tile, o: Tile, s: Side)
    requires Square(t.grid) && Square(o.grid)
  {
    Edges(t)[Index(s)] == Edges(o)[Index(Opposite(s))]
  }

  /** `firstOrNull` over the sides from position k of `Sides` on. */
  function FirstFit(t: Tile, o: Tile, k: nat): Option<Side>
    requires Square(t.grid) && Square(o.grid) && k <= 4
    decreases 4 - k
  {
    if k == 4 then None
    else if Fits(t, o, Sides[k]) then Some(Sides[k])
    else FirstFit(t, o, k + 1)
  }

  /** `directionTo`: the first side, in declaration order, along which `o`
      fits. */
  function DirectionTo(t: Tile, o: Tile): Option<Side>
    requires Square(t.grid) && Square(o.grid)
  {
    FirstFit(t, o, 0)
  }

  /** `directionTo` tries North, East, South and West in turn. */
  lemma DirectionToChain(t: Tile, o: Tile)
    requires Square(t.grid) && Square(o.grid)
    ensures DirectionTo(t, o) ==
      if Fits(t, o, North) then Some(North)
      else if Fits(t, o, East) then Some(East)
      else if Fits(t, o, South) then Some(South)
      else if Fits(t, o, West) then Some(West)
      else None
  {
    assert FirstFit(t, o, 4) == None;
  }

  /** `directionTo` names a side along which `o` fits and before which no
      side fits; it is null exactly when no side fits. */
  lemma DirectionToMeaning(t: Tile, o: Tile)
    requires Square(t.grid) && Square(o.grid)
    ensures forall s :: DirectionTo(t, o) == Some(s) <==>
      Fits(t, o, s) && forall s' :: Index(s') < Index(s) ==> !Fits(t, o, s')
    ensures DirectionTo(t, o) == None <==> forall s :: !Fits(t, o, s)
  {
    DirectionToChain(t, o);
  }

  /** Fitting is symmetric: `o` fits `t` on the opposite side. */
  lemma FitsSymmetric(t: Tile, o: Tile, s: Side)
    requires Square(t.grid) && Square(o.grid)
    ensures Fits(t, o, s) <==> Fits(o, t, Opposite(s))
  {
    SideLaws(s, (0, 0));
  }

  /** Kotlin's `reversed()`. */
  function Reversed<T>(s: seq<T>): seq<T>
  {
    seq(|s|, i requires 0 <= i < |s| => s[|s| - 1 - i])
  }

  lemma ReversedTwice<T>(s: seq<T>)
    ensures Reversed(Reversed(s)) == s
  {
  }

  function FlipVertical(t: Tile): Tile { Tile(t.id, Reversed(t.grid)) }

  function FlipHorizontal(t: Tile): Tile
  {
    Tile(t.id, seq(|t.grid|, r requires 0 <= r < |t.grid| => Reversed(t.grid[r])))
  }

  /** Both flips keep the id, the size and squareness, and undo themselves. */
  lemma FlipsInvolutions(t: Tile)
    requires Square(t.grid)
    ensures Square(FlipVertical(t).grid) && Square(FlipHorizontal(t).grid)
    ensures FlipVertical(t).id == t.id && Size(FlipVertical(t)) == Size(t)
    ensures FlipHorizontal(t).id == t.id && Size(FlipHorizontal(t)) == Size(t)
    ensures FlipVertical(FlipVertical(t)) == t && FlipHorizontal(FlipHorizontal(t)) == t
  {
    ReversedTwice(t.grid);
    var h := FlipHorizontal(FlipHorizontal(t)).grid;
    forall r | 0 <= r < |t.grid| ensures h[r] == t.grid[r] {
      ReversedTwice(t.grid[r]);
    }
  }

  /** What `rotateClockwise` builds: result[i][j] = grid[j][i]. */
  function Transpose(g: seq<seq<bool>>): (r: seq<seq<bool>>)
    requires Square(g)
    ensures Square(r) && |r| == |g|
  {
    seq(|g|, i requires 0 <= i < |g| => seq(|g|, j requires 0 <= j < |g| => g[j][i]))
  }

  /** `rotateClockwise`: fills an array of rows, one column of the grid per
      row. */
  method RotateClockwise(t: Tile) returns (r: Tile)
    requires Square(t.grid)
    ensures r == Tile(t.id, Transpose(t.grid))
  {
    var n := |t.grid[0]|;
    var lines := new seq<bool>[n];
    for i := 0 to |t.grid|
      invariant forall k :: 0 <= k < i ==> lines[k] == seq(n, j requires 0 <= j < n => t.grid[j][k])
    {
      lines[i] := seq(n, j requires 0 <= j < n => t.grid[j][i]);
    }
    r := Tile(t.id, lines[..]);
  }

  /** Despite its name, the "rotation" is a reflection in the main diagonal:
      applying it twice gives the original grid back. */
  lemma TransposeTwice(g: seq<seq<bool>>)
    requires Square(g)
    ensures Transpose(Transpose(g)) == g
  {
    var t := Transpose(Transpose(g));
    forall i | 0 <= i < |g| ensures t[i] == g[i] {
    }
  }

  function Rotate(t: Tile): Tile
    requires Square(t.grid)
  {
    Tile(t.id, Transpose(t.grid))
  }

  /** `rotations()`: one, two and three "rotations". */
  function Rotations(t: Tile): seq<Tile>
    requires Square(t.grid)
  {
    var r1 := Rotate(t);
    var r2 := Rotate(r1);
    [r1, r2, Rotate(r2)]
  }

  /** So the three "rotations" are the reflection, the tile itself and the
      reflection again. */
  lemma RotationsAlternate(t: Tile)
    requires Square(t.grid)
    ensures Rotations(t) == [Rotate(t), t, Rotate(t)]
  {
    TransposeTwice(t.grid);
    TransposeTwice(Transpose(t.grid));
  }

  /** The list `variants()` turns into a set. */
  function VariantList(t: Tile): seq<Tile>
    requires Square(t.grid)
  {
    FlipsInvolutions(t);
    var vertical := FlipVertical(t);
    var horizontal := FlipHorizontal(t);
    FlipsInvolutions(vertical);
    var diagonal := FlipHorizontal(vertical);
    FlipsInvolutions(diagonal);
    Rotations(t) + [vertical] + Rotations(vertical) + [horizontal] + Rotations(horizontal)
      + [diagonal] + Rotations(diagonal)
  }

  function Variants(t: Tile): set<Tile>
    requires Square(t.grid)
  {
    set v | v in VariantList(t)
  }

  // The eight symmetries of the square, as an independent reference: each
  // reads pixel (i, j) of its image from the place given here.

  function SourceRow(k: nat, n: nat, i: nat, j: nat): nat
    requires k < 8 && i < n && j < n
  {
    match k
    case 0 => i
    case 1 => n - 1 - j
    case 2 => n - 1 - i
    case 3 => j
    case 4 => n - 1 - i
    case 5 => i
    case 6 => j
    case _ => n - 1 - j
  }

  function SourceCol(k: nat, n: nat, i: nat, j: nat): nat
    requires k < 8 && i < n && j < n
  {
    match k
    case 0 => j
    case 1 => i
    case 2 => n - 1 - j
    case 3 => n - 1 - i
    case 4 => j
    case 5 => n - 1 - j
    case 6 => i
    case _ => n - 1 - i
  }

  /** Symmetry 0 is the identity, 1 the quarter turn clockwise, 2 the half
      turn, 3 the quarter turn anticlockwise, 4 the flip of the rows, 5 the
      flip of each row, 6 and 7 the reflections in the two diagonals. */
  function Symmetry(g: seq<seq<bool>>, k: nat): (r: seq<seq<bool>>)
    requires Square(g) && k < 8
    ensures Square(r) && |r| == |g|
  {
    var n := |g|;
    seq(n, i requires 0 <= i < n =>
      seq(n, j requires 0 <= j < n => g[SourceRow(k, n, i, j)][SourceCol(k, n, i, j)]))
  }

  /** Two grids with the same shape and the same pixels are equal. */
  lemma GridsEqual(a: seq<seq<bool>>, b: seq<seq<bool>>)
    requires |a| == |b| && forall i :: 0 <= i < |a| ==> |a[i]| == |b[i]|
    requires forall i, j :: 0 <= i < |a| && 0 <= j < |a[i]| ==> a[i][j] == b[i][j]
    ensures a == b
  {
    forall i | 0 <= i < |a| ensures a[i] == b[i] {
      assert forall j :: 0 <= j < |a[i]| ==> a[i][j] == b[i][j];
    }
  }

  lemma SymmetryIdentity(g: seq<seq<bool>>)
    requires Square(g)
    ensures Symmetry(g, 0) == g
  {
    GridsEqual(Symmetry(g, 0), g);
  }

  lemma SymmetryVertical(t: Tile)
    requires Square(t.grid)
    ensures FlipVertical(t).grid == Symmetry(t.grid, 4)
  {
    GridsEqual(FlipVertical(t).grid, Symmetry(t.grid, 4));
  }

  lemma SymmetryHorizontal(t: Tile)
    requires Square(t.grid)
    ensures FlipHorizontal(t).grid == Symmetry(t.grid, 5)
  {
    GridsEqual(FlipHorizontal(t).grid, Symmetry(t.grid, 5));
  }

  lemma SymmetryDiagonal(t: Tile)
    requires Square(t.grid)
    ensures Square(FlipVertical(t).grid)
    ensures FlipHorizontal(FlipVertical(t)).grid == Symmetry(t.grid, 2)
  {
    var g := t.grid;
    var n := |g|;
    var v := FlipVertical(t).grid;
    assert |v| == n && forall r :: 0 <= r < n ==> v[r] == g[n - 1 - r];
    var d := FlipHorizontal(FlipVertical(t)).grid;
    var e := Symmetry(g, 2);
    forall i | 0 <= i < n ensures |d[i]| == |e[i]| && forall j :: 0 <= j < n ==> d[i][j] == e[i][j] {
      assert d[i] == Reversed(v[i]) && v[i] == g[n - 1 - i];
    }
    GridsEqual(d, e);
  }

  lemma TransposeIdentity(g: seq<seq<bool>>)
    requires Square(g)
    ensures Transpose(g) == Symmetry(g, 6)
  {
    GridsEqual(Transpose(g), Symmetry(g, 6));
  }

  lemma TransposeVertical(g: seq<seq<bool>>)
    requires Square(g)
    ensures Transpose(Symmetry(g, 4)) == Symmetry(g, 1)
  {
    GridsEqual(Transpose(Symmetry(g, 4)), Symmetry(g, 1));
  }

  lemma TransposeHorizontal(g: seq<seq<bool>>)
    requires Square(g)
    ensures Transpose(Symmetry(g, 5)) == Symmetry(g, 3)
  {
    GridsEqual(Transpose(Symmetry(g, 5)), Symmetry(g, 3));
  }

  lemma TransposeDiagonal(g: seq<seq<bool>>)
    requires Square(g)
    ensures Transpose(Symmetry(g, 2)) == Symmetry(g, 7)
  {
    GridsEqual(Transpose(Symmetry(g, 2)), Symmetry(g, 7));
  }

  function Sym(t: Tile, k: nat): Tile
    requires Square(t.grid) && k < 8
  {
    Tile(t.id, Symmetry(t.grid, k))
  }

  /** The list of variants, written as symmetries. */
  /** The list of variants, written as symmetries. */
  lemma VariantListSymmetries(t: Tile)
    requires Square(t.grid)
    ensures VariantList(t) == [Sym(t, 6), Sym(t, 0), Sym(t, 6), Sym(t, 4), Sym(t, 1), Sym(t, 4), Sym(t, 1),
      Sym(t, 5), Sym(t, 3), Sym(t, 5), Sym(t, 3), Sym(t, 2), Sym(t, 7), Sym(t, 2), Sym(t, 7)]
  {
    var g := t.grid;
    FlipsInvolutions(t);
    var vertical := FlipVertical(t);
    var horizontal := FlipHorizontal(t);
    FlipsInvolutions(vertical);
    var diagonal := FlipHorizontal(vertical);
    SymmetryIdentity(g);
    SymmetryVertical(t);
    SymmetryHorizontal(t);
    SymmetryDiagonal(t);
    assert t == Sym(t, 0) && vertical == Sym(t, 4) && horizontal == Sym(t, 5) && diagonal == Sym(t, 2);
    TransposeIdentity(g);
    TransposeVertical(g);
    TransposeHorizontal(g);
    TransposeDiagonal(g);
    assert Rotate(t) == Sym(t, 6) && Rotate(vertical) == Sym(t, 1);
    assert Rotate(horizontal) == Sym(t, 3) && Rotate(diagonal) == Sym(t, 7);
    RotationsAlternate(t);
    RotationsAlternate(vertical);
    RotationsAlternate(horizontal);
    RotationsAlternate(diagonal);
  }

  /** `variants()` together with the tile itself is exactly the eight
      symmetries of the square applied to the tile: two "rotations" that
      are really reflections still reach every orientation. */
  lemma VariantsAreSymmetries(t: Tile)
    requires Square(t.grid)
    ensures Variants(t) + {t} == set k | 0 <= k < 8 :: Sym(t, k)
  {
    VariantListSymmetries(t);
    SymmetryIdentity(t.grid);
    var l := VariantList(t);
    assert forall v :: v in l <==> v in [Sym(t, 0), Sym(t, 1), Sym(t, 2), Sym(t, 3), Sym(t, 4), Sym(t, 5), Sym(t, 6), Sym(t, 7)];
  }

  /** Every variant keeps the tile's id and size. */
  lemma VariantsKeep(t: Tile)
    requires Square(t.grid)
    ensures forall v :: v in Variants(t) ==> v.id == t.id && Square(v.grid) && Size(v) == Size(t)
  {
    VariantsAreSymmetries(t);
    forall v | v in Variants(t) ensures v.id == t.id && Square(v.grid) && Size(v) == Size(t) {
      assert v in Variants(t) + {t};
      var k :| 0 <= k < 8 && v == Sym(t, k);
    }
  }

  // ---------------------------------------------------- edges of the variants

  /** A tile's edges, each in both directions. */
  function Oriented(t: Tile): set<string>
    requires Square(t.grid)
  {
    var e := Edges(t);
    {e[0], e[1], e[2], e[3], Reversed(e[0]), Reversed(e[1]), Reversed(e[2]), Reversed(e[3])}
  }

  lemma EdgeTextReversed(bs: seq<bool>)
    ensures EdgeText(Reversed(bs)) == Reversed(EdgeText(bs))
  {
  }

  /** Flipping the rows swaps top and bottom and reverses the sides. */
  lemma EdgesFlipVertical(t: Tile)
    requires Square(t.grid)
    ensures Square(FlipVertical(t).grid)
    ensures var e := Edges(t);
      Edges(FlipVertical(t)) == [e[2], Reversed(e[1]), e[0], Reversed(e[3])]
  {
    var g := t.grid;
    var n := |g|;
    var v := FlipVertical(t).grid;
    ColumnFlipped(g, 0);
    var e := Edges(t);
    var f := Edges(FlipVertical(t));
    assert f[0] == e[2] && f[2] == e[0] by {
      assert v[0] == g[n - 1] && v[n - 1] == g[0];
    }
    assert f[1] == Reversed(e[1]) by {
      ColumnFlipped(g, n - 1);
      EdgeTextReversed(Column(g, n - 1));
    }
    assert f[3] == Reversed(e[3]) by {
      ColumnFlipped(g, 0);
      EdgeTextReversed(Column(g, 0));
    }
  }

  lemma ColumnFlipped(g: seq<seq<bool>>, j: nat)
    requires Square(g) && j < |g|
    ensures Square(Reversed(g)) && Column(Reversed(g), j) == Reversed(Column(g, j))
  {
    var v := Reversed(g);
    assert forall r :: 0 <= r < |v| ==> v[r] == g[|g| - 1 - r];
  }

  /** Flipping each row swaps left and right and reverses top and bottom. */
  lemma EdgesFlipHorizontal(t: Tile)
    requires Square(t.grid)
    ensures Square(FlipHorizontal(t).grid)
    ensures var e := Edges(t);
      Edges(FlipHorizontal(t)) == [Reversed(e[0]), e[3], Reversed(e[2]), e[1]]
  {
    FlipsInvolutions(t);
    var g := t.grid;
    var n := |g|;
    var h := FlipHorizontal(t).grid;
    var e := Edges(t);
    var f := Edges(FlipHorizontal(t));
    assert f[1] == e[3] && f[3] == e[1] by {
      assert Column(h, n - 1) == Column(g, 0);
      assert Column(h, 0) == Column(g, n - 1);
    }
    assert f[0] == Reversed(e[0]) && f[2] == Reversed(e[2]) by {
      EdgeTextReversed(g[0]);
      EdgeTextReversed(g[n - 1]);
    }
  }

  /** The reflection in the diagonal swaps top with left and right with
      bottom. */
  lemma EdgesRotate(t: Tile)
    requires Square(t.grid)
    ensures var e := Edges(t); Edges(Rotate(t)) == [e[3], e[2], e[1], e[0]]
  {
    var g := t.grid;
    var n := |g|;
    var r := Transpose(g);
    assert r[0] == Column(g, 0);
    assert Column(r, n - 1) == g[n - 1];
    assert r[n - 1] == Column(g, n - 1);
    assert Column(r, 0) == g[0];
  }

  lemma ReversedStrings(s: string)
    ensures Reversed(Reversed(s)) == s
  {
    ReversedTwice(s);
  }

  /** The flips and the reflection keep the set of edges in both
      directions. */
  lemma OrientedKept(t: Tile)
    requires Square(t.grid)
    ensures Square(FlipVertical(t).grid) && Square(FlipHorizontal(t).grid)
    ensures Oriented(FlipVertical(t)) == Oriented(t)
    ensures Oriented(FlipHorizontal(t)) == Oriented(t)
    ensures Oriented(Rotate(t)) == Oriented(t)
  {
    EdgesFlipVertical(t);
    EdgesFlipHorizontal(t);
    EdgesRotate(t);
    var e := Edges(t);
    ReversedStrings(e[0]);
    ReversedStrings(e[1]);
    ReversedStrings(e[2]);
    ReversedStrings(e[3]);
  }

  /** Each variant, or the tile itself, is the tile, one of its flips or
      the reflection of one of those. */
  lemma VariantCases(t: Tile, v: Tile)
    requires Square(t.grid) && v in Variants(t) + {t}
    ensures Square(FlipVertical(t).grid) && Square(FlipHorizontal(t).grid)
    ensures Square(FlipHorizontal(FlipVertical(t)).grid)
    ensures var vertical := FlipVertical(t);
      var horizontal := FlipHorizontal(t);
      var diagonal := FlipHorizontal(vertical);
      v == t || v == Rotate(t) || v == vertical || v == Rotate(vertical) ||
      v == horizontal || v == Rotate(horizontal) || v == diagonal || v == Rotate(diagonal)
  {
    FlipsInvolutions(t);
    var vertical := FlipVertical(t);
    FlipsInvolutions(vertical);
    RotationsAlternate(t);
    RotationsAlternate(vertical);
    RotationsAlternate(FlipHorizontal(t));
    RotationsAlternate(FlipHorizontal(vertical));
  }

  /** Both flips are among the variants. */
  lemma FlipsAreVariants(t: Tile)
    requires Square(t.grid)
    ensures FlipVertical(t) in Variants(t) && FlipHorizontal(t) in Variants(t)
  {
    FlipsInvolutions(t);
    assert VariantList(t)[3] == FlipVertical(t) && VariantList(t)[7] == FlipHorizontal(t);
  }

  /** Every variant has the tile's edges, in both directions. */
  lemma VariantsOriented(t: Tile)
    requires Square(t.grid)
    ensures forall v :: v in Variants(t) + {t} ==> Square(v.grid) && Oriented(v) == Oriented(t)
  {
    forall v | v in Variants(t) + {t} ensures Square(v.grid) && Oriented(v) == Oriented(t) {
      VariantCases(t, v);
      var vertical := FlipVertical(t);
      var horizontal := FlipHorizontal(t);
      var diagonal := FlipHorizontal(vertical);
      OrientedKept(t);
      if v == Rotate(vertical) || v == diagonal || v == Rotate(diagonal) {
        OrientedKept(vertical);
        if v == Rotate(diagonal) {
          OrientedKept(diagonal);
        }
      } else if v == Rotate(horizontal) {
        OrientedKept(horizontal);
      }
    }
  }

  /** Every edge of the tile, in either direction, is an edge of the tile
      or of one of its flips. */
  lemma OrientedReached(t: Tile, x: string)
    requires Square(t.grid) && x in Oriented(t)
    ensures exists v, k :: v in Variants(t) + {t} && 0 <= k < 4 && Square(v.grid) && Edges(v)[k] == x
  {
    FlipsAreVariants(t);
    var e := Edges(t);
    EdgesFlipVertical(t);
    EdgesFlipHorizontal(t);
    if x == e[0] || x == e[1] || x == e[2] || x == e[3] {
      var k :| 0 <= k < 4 && e[k] == x;
      assert t in Variants(t) + {t} && Edges(t)[k] == x;
    } else if x == Reversed(e[1]) || x == Reversed(e[3]) {
      var k :| k in {1, 3} && x == Reversed(e[k]);
      assert FlipVertical(t) in Variants(t) + {t} && Edges(FlipVertical(t))[k] == x;
    } else {
      var k :| k in {0, 2} && x == Reversed(e[k]);
      assert FlipHorizontal(t) in Variants(t) + {t} && Edges(FlipHorizontal(t))[k] == x;
    }
  }

  /** Every edge of every variant is an edge of the tile, possibly reversed;
      and every edge of the tile and every reversed edge is an edge of the
      tile or of one of its variants. */
  lemma VariantEdges(t: Tile)
    requires Square(t.grid)
    ensures forall v, k :: v in Variants(t) + {t} && 0 <= k < 4 ==> Square(v.grid) && Edges(v)[k] in Oriented(t)
    ensures forall e :: e in Oriented(t) <==>
      exists v, k :: v in Variants(t) + {t} && 0 <= k < 4 && Square(v.grid) && Edges(v)[k] == e
  {
    VariantsOriented(t);
    forall v, k | v in Variants(t) + {t} && 0 <= k < 4 ensures Square(v.grid) && Edges(v)[k] in Oriented(t) {
      assert Edges(v)[k] in Oriented(v);
    }
    forall x | x in Oriented(t)
      ensures exists v, k :: v in Variants(t) + {t} && 0 <= k < 4 && Square(v.grid) && Edges(v)[k] == x
    {
      OrientedReached(t, x);
    }
  }

  // --------------------------------------------------------- pattern search

  /** `matches`: false when the pattern's bounding box leaves the tile,
      otherwise whether every point of the pattern is a set pixel. */
  predicate MatchesAt(t: Tile, p: PixelPattern)
    requires Square(t.grid)
  {
    var o := Origin(p);
    var m := MaxCorner(p);
    if o.0 < 0 || o.1 < 0 || m.0 >= Size(t) || m.1 >= Size(t) then false
    else
      Extremes(Firsts(p));
      Extremes(Seconds(p));
      assert forall k :: 0 <= k < |p| ==> Firsts(p)[k] == p[k].0 && Seconds(p)[k] == p[k].1;
      forall k :: 0 <= k < |p| ==> t.grid[p[k].0][p[k].1]
  }

  /** The bounding-box test is the same as asking that every point lies in
      the tile: a pattern matches exactly when all of its points are set
      pixels of the tile. */
  lemma MatchesAtMeaning(t: Tile, p: PixelPattern)
    requires Square(t.grid)
    ensures MatchesAt(t, p) <==>
      forall k :: 0 <= k < |p| ==> 0 <= p[k].0 < Size(t) && 0 <= p[k].1 < Size(t) && t.grid[p[k].0][p[k].1]
  {
    Extremes(Firsts(p));
    Extremes(Seconds(p));
    assert forall k :: 0 <= k < |p| ==> Firsts(p)[k] == p[k].0 && Seconds(p)[k] == p[k].1;
  }

  /** The offsets of `offs` at which the shifted pattern matches, in order. */
  function MatchingOffsets(t: Tile, p: PixelPattern, offs: seq<Point>): (r: seq<Point>)
    requires Square(t.grid)
    ensures forall o :: o in r <==> o in offs && MatchesAt(t, Shifted(p, o))
  {
    if offs == [] then []
    else
      var o := offs[|offs| - 1];
      MatchingOffsets(t, p, offs[..|offs| - 1]) + (if MatchesAt(t, Shifted(p, o)) then [o] else [])
  }

  /** `findMatches`: the offsets over the tile, row by row, at which the
      shifted pattern matches. */
  function FindMatches(t: Tile, p: PixelPattern): seq<Point>
    requires Square(t.grid)
  {
    MatchingOffsets(t, p, Until((0, 0), (Size(t), Size(t))))
  }

  /** An offset is found exactly when it lies on the tile and the shifted
      pattern's points all lie on set pixels of the tile. */
  lemma FindMatchesMeaning(t: Tile, p: PixelPattern, o: Point)
    requires Square(t.grid)
    ensures o in FindMatches(t, p) <==>
      0 <= o.0 < Size(t) && 0 <= o.1 < Size(t) &&
      forall k :: 0 <= k < |p| ==>
        var q := Plus(p[k], o);
        0 <= q.0 < Size(t) && 0 <= q.1 < Size(t) && t.grid[q.0][q.1]
  {
    var q := Shifted(p, o);
    assert o in FindMatches(t, p) <==> 0 <= o.0 < Size(t) && 0 <= o.1 < Size(t) && MatchesAt(t, q);
    MatchesAtMeaning(t, q);
    assert forall k :: 0 <= k < |p| ==> q[k] == Plus(p[k], o);
  }
}
