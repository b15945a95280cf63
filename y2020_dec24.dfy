/** 2020 day 24: walking a hexagonal floor and flipping tiles.

    A tile is named by its offsets west and north of the reference tile. The
    source keeps the west offset as a `Float` that moves in halves; here it
    is doubled, so every coordinate is an integer. */
module Y2020Dec24 {
  import opened Common

  datatype Direction = East | West | SouthEast | SouthWest | NorthEast | NorthWest

  /** Twice the west offset and the north offset of one step. */
  function DeltaWest2(d: Direction): int
  {
    match d
    case East => -2
    case West => 2
    case SouthEast => -1
    case SouthWest => 1
    case NorthEast => -1
    case NorthWest => 1
  }

  function DeltaNorth(d: Direction): int
  {
    match d
    case East => 0
    case West => 0
    case SouthEast => -1
    case SouthWest => -1
    case NorthEast => 1
    case NorthWest => 1
  }

  /** The directions in declaration order (`Direction.values()`). */
  const AllDirections: seq<Direction> := [East, West, SouthEast, SouthWest, NorthEast, NorthWest]

  /** The position of a direction in `AllDirections`. */
  function Index(d: Direction): (i: nat)
    ensures i < 6 && AllDirections[i] == d
  {
    match d
    case East => 0
    case West => 1
    case SouthEast => 2
    case SouthWest => 3
    case NorthEast => 4
    case NorthWest => 5
  }

  function Opposite(d: Direction): Direction
  {
    match d
    case East => West
    case West => East
    case SouthEast => NorthWest
    case SouthWest => NorthEast
    case NorthEast => SouthWest
    case NorthWest => SouthEast
  }

  /** `west2` is twice the west offset. */
  datatype Tile = Tile(west2: int, north: int)

  const Origin := Tile(0, 0)

  function Plus(t: Tile, d: Direction): Tile
  {
    Tile(t.west2 + DeltaWest2(d), t.north + DeltaNorth(d))
  }

  /** The opposite directions cancel: stepping one way and back returns to
      the same tile. */
  lemma OppositeCancels(t: Tile, d: Direction)
    ensures Opposite(d) != d && Opposite(Opposite(d)) == d
    ensures DeltaWest2(Opposite(d)) == -DeltaWest2(d) && DeltaNorth(Opposite(d)) == -DeltaNorth(d)
    ensures Plus(Plus(t, d), Opposite(d)) == t
  {
  }

  function Neighbors(t: Tile): (r: seq<Tile>)
    ensures |r| == 6
  {
    seq(6, i requires 0 <= i < 6 => Plus(t, AllDirections[i]))
  }

  function NeighborSet(t: Tile): set<Tile>
  {
    set i | 0 <= i < 6 :: Neighbors(t)[i]
  }

  /** The six neighbours are six different tiles, none of them the tile
      itself, and adjacency is symmetric. */
  lemma NeighborsShape(t: Tile)
    ensures forall i, j :: 0 <= i < j < 6 ==> Neighbors(t)[i] != Neighbors(t)[j]
    ensures t !in Neighbors(t)
    ensures forall b :: b in NeighborSet(t) <==> t in NeighborSet(b)
  {
    forall b | b in NeighborSet(t)
      ensures t in NeighborSet(b)
    {
      var i :| 0 <= i < 6 && Neighbors(t)[i] == b;
      var d := AllDirections[i];
      OppositeCancels(t, d);
      assert Neighbors(b)[Index(Opposite(d))] == t;
    }
    forall b | t in NeighborSet(b)
      ensures b in NeighborSet(t)
    {
      var i :| 0 <= i < 6 && Neighbors(b)[i] == t;
      var d := AllDirections[i];
      OppositeCancels(b, d);
      assert Neighbors(t)[Index(Opposite(d))] == b;
    }
  }

  // ---------------------------------------------------------------- reading a line

  /** The text of a direction in the input. */
  function Name(d: Direction): string
  {
    match d
    case East => "e"
    case West => "w"
    case SouthEast => "se"
    case SouthWest => "sw"
    case NorthEast => "ne"
    case NorthWest => "nw"
  }

  function Render(ds: seq<Direction>): string
  {
    if ds == [] then "" else Name(ds[0]) + Render(ds[1..])
  }

  function Unexpected(line: string): string
  {
    "Unexpected direction in " + line
  }

  /** What `directionSequence(line)` yields from index `i` on: the
      directions, or the error it stops with. A lone 's' or 'n' at the end
      reads past the line. */
  function DirectionsFrom(line: string, i: nat): Result<seq<Direction>>
    requires i <= |line|
    decreases |line| - i
  {
    if i == |line| then Ok([])
    else if line[i] == 'e' then Prepend(East, DirectionsFrom(line, i + 1))
    else if line[i] == 'w' then Prepend(West, DirectionsFrom(line, i + 1))
    else if line[i] == 's' || line[i] == 'n' then
      if i + 1 == |line| then Err("StringIndexOutOfBoundsException")
      else if line[i + 1] == 'e' then
        Prepend(if line[i] == 's' then SouthEast else NorthEast, DirectionsFrom(line, i + 2))
      else if line[i + 1] == 'w' then
        Prepend(if line[i] == 's' then SouthWest else NorthWest, DirectionsFrom(line, i + 2))
      else Err(Unexpected(line))
    else Err(Unexpected(line))
  }

  function Prepend(d: Direction, r: Result<seq<Direction>>): Result<seq<Direction>>
  {
    match r
    case Ok(ds) => Ok([d] + ds)
    case Err(m) => Err(m)
  }

  function Directions(line: string): Result<seq<Direction>>
  {
    DirectionsFrom(line, 0)
  }

  /** A line reads as exactly the directions whose names it concatenates. */
  lemma {:induction false} DirectionsRender(line: string, i: nat, ds: seq<Direction>)
    requires i <= |line|
    ensures DirectionsFrom(line, i) == Ok(ds) <==> line[i..] == Render(ds)
    decreases |line| - i
  {
    if i == |line| {
      assert ds != [] ==> |Render(ds)| >= |Name(ds[0])| >= 1;
    } else {
      if DirectionsFrom(line, i) == Ok(ds) {
        ReadFirst(line, i, ds);
      }
      if line[i..] == Render(ds) {
        RenderFirst(line, i, ds);
      }
    }
  }

  lemma ReadFirst(line: string, i: nat, ds: seq<Direction>)
    requires i < |line| && DirectionsFrom(line, i) == Ok(ds)
    ensures line[i..] == Render(ds)
    decreases |line| - i, 0
  {
    var k := ReadStep(line, i, ds);
    DirectionsRender(line, i + k, ds[1..]);
    SplitAt(line, i, k);
    assert Render(ds) == Name(ds[0]) + Render(ds[1..]);
  }

  lemma SplitAt(s: string, i: nat, k: nat)
    requires i + k <= |s|
    ensures s[i..] == s[i..i + k] + s[i + k..]
  {
  }

  /** The first direction read is the name at the head of the text. */
  lemma ReadStep(line: string, i: nat, ds: seq<Direction>) returns (k: nat)
    requires i < |line| && DirectionsFrom(line, i) == Ok(ds)
    ensures ds != [] && k == |Name(ds[0])| && i + k <= |line|
    ensures line[i..i + k] == Name(ds[0]) && DirectionsFrom(line, i + k) == Ok(ds[1..])
  {
    var c := line[i];
    if c == 's' || c == 'n' {
      k := 2;
      var rest := DirectionsFrom(line, i + 2);
      assert ds == [ds[0]] + rest.value;
      assert line[i..i + 2] == [c, line[i + 1]];
    } else {
      k := 1;
      var rest := DirectionsFrom(line, i + 1);
      assert ds == [ds[0]] + rest.value;
      assert line[i..i + 1] == [c];
    }
  }

  lemma RenderFirst(line: string, i: nat, ds: seq<Direction>)
    requires i < |line| && line[i..] == Render(ds)
    ensures DirectionsFrom(line, i) == Ok(ds)
    decreases |line| - i, 0
  {
    assert ds != [];
    var d := ds[0];
    var k := |Name(d)|;
    assert Render(ds) == Name(d) + Render(ds[1..]);
    assert line[i..][..k] == Name(d);
    assert line[i] == Name(d)[0];
    assert k == 2 ==> i + 1 < |line| && line[i + 1] == Name(d)[1];
    assert line[i + k..] == Render(ds[1..]);
    DirectionsRender(line, i + k, ds[1..]);
    FirstStep(line, i, d);
    assert [d] + ds[1..] == ds;
  }

  lemma FirstStep(line: string, i: nat, d: Direction)
    requires i + |Name(d)| <= |line| && line[i] == Name(d)[0]
    requires |Name(d)| == 2 ==> line[i + 1] == Name(d)[1]
    ensures DirectionsFrom(line, i) == Prepend(d, DirectionsFrom(line, i + |Name(d)|))
  {
    match d
    case East =>
    case West =>
    case SouthEast =>
    case SouthWest =>
    case NorthEast =>
    case NorthWest =>
  }

  /** Each direction uses one character, plus one for each 's' or 'n'. */
  function TurnCount(s: string): nat
  {
    if s == [] then 0 else (if s[0] == 's' || s[0] == 'n' then 1 else 0) + TurnCount(s[1..])
  }

  lemma {:induction false} DirectionsCount(line: string, i: nat)
    requires i <= |line| && DirectionsFrom(line, i).Ok?
    ensures |DirectionsFrom(line, i).value| == |line| - i - TurnCount(line[i..])
    decreases |line| - i
  {
    if i < |line| {
      var s := line[i..];
      assert s[1..] == line[i + 1..];
      if line[i] == 's' || line[i] == 'n' {
        assert s[1..][0] == line[i + 1] && s[1..][1..] == line[i + 2..];
        DirectionsCount(line, i + 2);
      } else {
        DirectionsCount(line, i + 1);
      }
    }
  }

  /** The source's loop over the index `i`, yielding as it goes. */
  method DirectionSequence(line: string) returns (r: Result<seq<Direction>>)
    ensures r == Directions(line)
  {
    var dirs: seq<Direction> := [];
    var i := 0;
    ConcatEmpty(DirectionsFrom(line, 0));
    while i < |line|
      invariant 0 <= i <= |line|
      invariant Directions(line) == Concat(dirs, DirectionsFrom(line, i))
      decreases |line| - i
    {
      var c := line[i];
      var d: Direction;
      if c == 'e' {
        d := East;
      } else if c == 'w' {
        d := West;
      } else if c == 's' || c == 'n' {
        i := i + 1;
        if i == |line| {
          return Err("StringIndexOutOfBoundsException");
        }
        if line[i] == 'e' {
          d := if c == 's' then SouthEast else NorthEast;
        } else if line[i] == 'w' {
          d := if c == 's' then SouthWest else NorthWest;
        } else {
          return Err(Unexpected(line));
        }
      } else {
        return Err(Unexpected(line));
      }
      ConcatPrepend(dirs, d, DirectionsFrom(line, i + 1));
      dirs := dirs + [d];
      i := i + 1;
    }
    assert dirs + [] == dirs;
    r := Ok(dirs);
  }

  lemma ConcatEmpty(r: Result<seq<Direction>>)
    ensures Concat([], r) == r
  {
    if r.Ok? {
      assert [] + r.value == r.value;
    }
  }

  function Concat(ds: seq<Direction>, r: Result<seq<Direction>>): Result<seq<Direction>>
  {
    match r
    case Ok(rest) => Ok(ds + rest)
    case Err(m) => Err(m)
  }

  lemma ConcatPrepend(ds: seq<Direction>, d: Direction, r: Result<seq<Direction>>)
    ensures Concat(ds, Prepend(d, r)) == Concat(ds + [d], r)
  {
    if r.Ok? {
      assert ds + ([d] + r.value) == ds + [d] + r.value;
    }
  }

  // ---------------------------------------------------------------- finding a tile

  /** Folding the steps from tile `t`. */
  function Walk(t: Tile, ds: seq<Direction>): Tile
    decreases |ds|
  {
    if ds == [] then t else Walk(Plus(t, ds[0]), ds[1..])
  }

  function SumWest2(ds: seq<Direction>): int
  {
    if ds == [] then 0 else DeltaWest2(ds[0]) + SumWest2(ds[1..])
  }

  function SumNorth(ds: seq<Direction>): int
  {
    if ds == [] then 0 else DeltaNorth(ds[0]) + SumNorth(ds[1..])
  }

  /** The tile reached is the start moved by the summed deltas, whatever
      their order. */
  lemma {:induction false} WalkSums(t: Tile, ds: seq<Direction>)
    ensures Walk(t, ds) == Tile(t.west2 + SumWest2(ds), t.north + SumNorth(ds))
    decreases |ds|
  {
    if ds != [] {
      WalkSums(Plus(t, ds[0]), ds[1..]);
    }
  }

  lemma {:induction false} SumsAppend(a: seq<Direction>, b: seq<Direction>)
    ensures SumWest2(a + b) == SumWest2(a) + SumWest2(b)
    ensures SumNorth(a + b) == SumNorth(a) + SumNorth(b)
  {
    if a == [] {
      assert a + b == b;
    } else {
      assert (a + b)[0] == a[0] && (a + b)[1..] == a[1..] + b;
      SumsAppend(a[1..], b);
    }
  }

  /** A step and its opposite anywhere in the list leave the tile reached
      unchanged. */
  lemma CancelPair(ds: seq<Direction>, es: seq<Direction>, d: Direction)
    ensures Walk(Origin, ds + [d, Opposite(d)] + es) == Walk(Origin, ds + es)
  {
    WalkSums(Origin, ds + [d, Opposite(d)] + es);
    WalkSums(Origin, ds + es);
    SumsAppend(ds + [d, Opposite(d)], es);
    SumsAppend(ds, [d, Opposite(d)]);
    SumsAppend(ds, es);
    var pair := [d, Opposite(d)];
    OppositeCancels(Origin, d);
    assert pair[1..] == [Opposite(d)] && pair[1..][1..] == [];
    assert SumWest2(pair[1..]) == DeltaWest2(Opposite(d)) && SumNorth(pair[1..]) == DeltaNorth(Opposite(d));
    assert SumWest2(pair) == 0 && SumNorth(pair) == 0;
  }

  /** `findTile`: the tile a line leads to from the reference tile, which
      is the reference tile moved by the summed deltas of the line's
      directions; a line that does not read as directions is its error. */
  function FindTile(line: string): (r: Result<Tile>)
    ensures r.Err? <==> Directions(line).Err?
    ensures r.Err? ==> r.msg == Directions(line).msg
    ensures r.Ok? ==> var ds := Directions(line).value;
      r.value == Tile(SumWest2(ds), SumNorth(ds))
  {
    match Directions(line)
    case Ok(ds) => WalkSums(Origin, ds); Ok(Walk(Origin, ds))
    case Err(m) => Err(m)
  }

  /** The tiles of all lines, or the first line's error. */
  function FindTiles(lines: seq<string>): (r: Result<seq<Tile>>)
    ensures r.Ok? ==> (|r.value| == |lines| &&
      forall i :: 0 <= i < |lines| ==> FindTile(lines[i]) == Ok(r.value[i]))
    ensures r.Err? ==> exists i :: 0 <= i < |lines| && FindTile(lines[i]) == Err(r.msg)
  {
    if lines == [] then Ok([])
    else
      match FindTile(lines[0])
      case Err(m) => Err(m)
      case Ok(t) =>
        match FindTiles(lines[1..])
        case Err(m) =>
          assert exists i :: 0 <= i < |lines[1..]| && FindTile(lines[1..][i]) == Err(m);
          Err(m)
        case Ok(ts) => Ok([t] + ts)
  }

  // ---------------------------------------------------------------- part 1

  /** The tiles reached an odd number of times. */
  function OddTiles(tiles: seq<Tile>): set<Tile>
  {
    set t | t in tiles && multiset(tiles)[t] % 2 == 1
  }

  /** Flipping tile after tile, as the puzzle tells it. */
  function Flipped(tiles: seq<Tile>): set<Tile>
  {
    if tiles == [] then {}
    else
      var before := Flipped(tiles[..|tiles| - 1]);
      var t := tiles[|tiles| - 1];
      if t in before then before - {t} else before + {t}
  }

  /** Counting the odd tiles is the same as flipping tile after tile. */
  lemma {:induction false} OddTilesFlipped(tiles: seq<Tile>)
    ensures OddTiles(tiles) == Flipped(tiles)
  {
    if tiles != [] {
      var init := tiles[..|tiles| - 1];
      var t := tiles[|tiles| - 1];
      OddTilesFlipped(init);
      assert tiles == init + [t];
      OddTilesToggle(init, t);
    }
  }

  /** One more tile toggles whether it has been flipped an odd number of times. */
  lemma OddTilesToggle(init: seq<Tile>, t: Tile)
    ensures OddTiles(init + [t]) == if t in OddTiles(init) then OddTiles(init) - {t} else OddTiles(init) + {t}
  {
    var tiles := init + [t];
    assert multiset(tiles) == multiset(init) + multiset{t};
    forall u
      ensures u in OddTiles(tiles) <==> u in (if t in OddTiles(init) then OddTiles(init) - {t} else OddTiles(init) + {t})
    {
      var c := multiset(init)[u];
      assert u in OddTiles(init) <==> c % 2 == 1 by {
        assert u in init <==> c > 0;
      }
      if u == t {
        assert multiset(tiles)[u] == c + 1 && u in tiles;
      } else {
        assert multiset(tiles)[u] == c;
        assert u in tiles <==> u in init by {
          assert u in tiles <==> multiset(tiles)[u] > 0;
          assert u in init <==> c > 0;
        }
      }
    }
  }

  function Answer1(lines: seq<string>): Result<int>
  {
    match FindTiles(lines)
    case Ok(tiles) => Ok(|OddTiles(tiles)|)
    case Err(m) => Err(m)
  }

  // ---------------------------------------------------------------- part 2

  /** The tiles next to at least one black tile. */
  function Around(black: set<Tile>): set<Tile>
  {
    set b, i | b in black && 0 <= i < 6 :: Neighbors(b)[i]
  }

  /** `adjacent`: for each tile next to a black one, the number of pairs
      (tile, black) the source groups under it, which is the number of
      black tiles whose neighbour lists hold it (each list holds a tile at
      most once). */
  function Adjacent(black: set<Tile>): map<Tile, int>
  {
    map t | t in Around(black) :: |set b | b in black && t in NeighborSet(b)|
  }

  /** One round of the floor's game of life. */
  function LifeRound(black: set<Tile>): set<Tile>
  {
    var adjacent := Adjacent(black);
    (set t | t in black && 1 <= (if t in adjacent then adjacent[t] else 0) <= 2) +
    (set t | t in adjacent && adjacent[t] == 2)
  }

  /** The number of black tiles among the six neighbours of `t`. */
  function BlackAround(black: set<Tile>, t: Tile): nat
  {
    |black * NeighborSet(t)|
  }

  lemma AdjacentCount(black: set<Tile>, t: Tile)
    ensures (t in Adjacent(black)) <==> BlackAround(black, t) > 0
    ensures t in Adjacent(black) ==> Adjacent(black)[t] == BlackAround(black, t)
  {
    NeighborsShape(t);
    var s := set b | b in black && t in NeighborSet(b);
    assert s == black * NeighborSet(t);
    if BlackAround(black, t) > 0 {
      var b :| b in black * NeighborSet(t);
      var i :| 0 <= i < 6 && Neighbors(b)[i] == t;
      assert t in Around(black);
    }
    if t in Around(black) {
      var b, i :| b in black && 0 <= i < 6 && Neighbors(b)[i] == t;
      assert b in s;
    }
  }

  /** The rule of a round: a black tile stays black iff one or two of its
      neighbours are black, and a white tile turns black iff exactly two
      are. */
  lemma LifeRule(black: set<Tile>, t: Tile)
    ensures t in black ==> (t in LifeRound(black) <==> 1 <= BlackAround(black, t) <= 2)
    ensures t !in black ==> (t in LifeRound(black) <==> BlackAround(black, t) == 2)
  {
    AdjacentCount(black, t);
  }

  function LifeRounds(black: set<Tile>, n: nat): set<Tile>
  {
    if n == 0 then black else LifeRound(LifeRounds(black, n - 1))
  }

  const Days := 100

  function Answer2(lines: seq<string>): Result<int>
  {
    match FindTiles(lines)
    case Ok(tiles) => Ok(|LifeRounds(OddTiles(tiles), Days)|)
    case Err(m) => Err(m)
  }

  /** Finds every line's tile, with `directionSequence`'s loop. */
  method ReadTiles(lines: seq<string>) returns (r: Result<seq<Tile>>)
    ensures r == FindTiles(lines)
  {
    var tiles: seq<Tile> := [];
    var k := 0;
    while k < |lines|
      invariant 0 <= k <= |lines| && FindTiles(lines[..k]) == Ok(tiles)
    {
      var ds := DirectionSequence(lines[k]);
      TileRead(lines, k, tiles);
      if ds.Err? {
        return Err(ds.msg);
      }
      tiles := tiles + [Walk(Origin, ds.value)];
      k := k + 1;
    }
    assert lines[..k] == lines;
    r := Ok(tiles);
  }

  /** What reading line k does to the tiles of the lines before it. */
  lemma TileRead(lines: seq<string>, k: nat, tiles: seq<Tile>)
    requires k < |lines| && FindTiles(lines[..k]) == Ok(tiles)
    ensures Directions(lines[k]).Ok? ==> FindTiles(lines[..k + 1]) == Ok(tiles + [Walk(Origin, Directions(lines[k]).value)])
    ensures Directions(lines[k]).Err? ==> FindTiles(lines) == Err(Directions(lines[k]).msg)
  {
    FindTilesAppend(lines[..k], lines[k]);
    PrefixGrows(lines, k);
    if Directions(lines[k]).Err? {
      FindTilesErr(lines, k + 1);
    }
  }

  lemma PrefixGrows(lines: seq<string>, k: nat)
    requires k < |lines|
    ensures lines[..k + 1] == lines[..k] + [lines[k]]
  {
  }

  lemma {:induction false} FindTilesAppend(lines: seq<string>, line: string)
    requires FindTiles(lines).Ok?
    ensures FindTiles(lines + [line]) == match FindTile(line)
      case Ok(t) => Ok(FindTiles(lines).value + [t])
      case Err(m) => Err(m)
  {
    if lines == [] {
      var l := lines + [line];
      assert l == [line] && l[0] == line && l[1..] == [];
      assert FindTiles(l[1..]) == Ok([]);
      match FindTile(line)
      case Err(m) =>
      case Ok(u) =>
        assert FindTiles(l) == Ok([u] + []);
        assert [u] + [] == [] + [u];
    } else {
      assert (lines + [line])[0] == lines[0];
      assert (lines + [line])[1..] == lines[1..] + [line];
      FindTilesAppend(lines[1..], line);
      var t := FindTile(lines[0]).value;
      var rest := FindTiles(lines[1..]).value;
      match FindTile(line)
      case Err(m) =>
      case Ok(u) =>
        assert [t] + (rest + [u]) == [t] + rest + [u];
    }
  }

  /** An error on a prefix is the error of the whole list. */
  lemma {:induction false} FindTilesErr(lines: seq<string>, k: nat)
    requires k <= |lines| && FindTiles(lines[..k]).Err?
    ensures FindTiles(lines) == FindTiles(lines[..k])
  {
    assert k > 0;
    if FindTile(lines[0]).Ok? {
      assert lines[..k][0] == lines[0];
      assert lines[..k][1..] == lines[1..][..k - 1];
      FindTilesErr(lines[1..], k - 1);
    } else {
      assert lines[..k][0] == lines[0];
    }
  }

  method Part1(lines: seq<string>) returns (r: Result<int>)
    ensures r == Answer1(lines)
  {
    var tiles := ReadTiles(lines);
    if tiles.Err? {
      return Err(tiles.msg);
    }
    r := Ok(|OddTiles(tiles.value)|);
  }

  /** One more day is one more round. */
  lemma DayAfter(black: set<Tile>, day: nat, flipped: set<Tile>)
    requires flipped == LifeRounds(black, day)
    ensures LifeRound(flipped) == LifeRounds(black, day + 1)
  {
  }

  /** `repeat(100)`: reassigns `flipped` to the next day's black tiles. */
  method PlayDays(black: set<Tile>, days: nat) returns (flipped: set<Tile>)
    ensures flipped == LifeRounds(black, days)
  {
    flipped := black;
    var day := 0;
    while day < days
      invariant 0 <= day <= days && flipped == LifeRounds(black, day)
    {
      DayAfter(black, day, flipped);
      flipped := LifeRound(flipped);
      day := day + 1;
    }
  }

  /** Starts from part 1's black tiles and plays the days. */
  method Part2(lines: seq<string>) returns (r: Result<int>)
    ensures r == Answer2(lines)
  {
    var tiles := ReadTiles(lines);
    if tiles.Err? {
      return Err(tiles.msg);
    }
    var flipped := PlayDays(OddTiles(tiles.value), Days);
    r := Ok(|flipped|);
  }
}
