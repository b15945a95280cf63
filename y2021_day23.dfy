/** 2021 day 23: amphipods of four kinds move between a hallway and four
    side rooms until every kind sits in its own room, and the search finds
    the cheapest way to get there.

    The hallway has cells 1..11; rooms open below hall cells 3, 5, 7 and 9,
    and slot 1 of a room is the one next to the hallway, slot `depth` the
    deepest. A pod may move from a room into the hallway or from anywhere
    into its own room, never from one hall cell to another; each step costs
    1, 10, 100 or 1000 depending on the kind. The boards of the puzzle are
    written into the program, so every board the search meets is
    well-formed (`WellFormed`), and the board operations require it. */
module Y2021Day23 {
  import opened Common

  // ---------------------------------------------------------------- positions

  /** A cell: `hall > 0` for a hall cell, `room > 0` with `slot` for a
      room slot. */
  datatype Position = Position(hall: int, room: int, slot: int)

  /** The column of a cell: its hall index, or the hall cell its room
      opens below. */
  function X(p: Position): int
  {
    if p.hall > 0 then p.hall else p.room
  }

  /** A cell that names both a hall cell and a room; `dist` refuses it. */
  predicate ValidPos(p: Position)
  {
    !(p.hall > 0 && p.room > 0)
  }

  predicate IsRoom(r: int)
  {
    r == 3 || r == 5 || r == 7 || r == 9
  }

  predicate HallCell(p: Position)
  {
    1 <= p.hall <= 11 && p.room == 0 && p.slot == 0
  }

  predicate RoomCell(p: Position, depth: int)
  {
    p.hall == 0 && IsRoom(p.room) && 1 <= p.slot <= depth
  }

  /** Steps between two cells: along the hallway, plus the slots climbed
      out of a room and down into one. A hall-to-hall distance is never
      used for a legal move. */
  function Dist(p: Position, o: Position): (d: int)
    requires ValidPos(p) && ValidPos(o)
  {
    if p.hall > 0 && o.room > 0 then Abs(p.hall - o.room) + o.slot
    else if o.hall > 0 && p.room > 0 then Abs(o.hall - p.room) + p.slot
    else if p.hall > 0 && o.hall > 0 then Abs(p.hall - o.hall)
    else Abs(p.room - o.room) + p.slot + o.slot
  }

  /** The distance does not depend on the direction of travel, and between
      cells of the board it is the hallway distance between their columns
      plus the room slots on either end. */
  lemma DistMeaning(p: Position, o: Position, depth: int)
    requires (HallCell(p) || RoomCell(p, depth)) && (HallCell(o) || RoomCell(o, depth))
    ensures Dist(p, o) == Dist(o, p)
    ensures Dist(p, o) == Abs(X(p) - X(o)) + p.slot + o.slot
    ensures HallCell(p) && RoomCell(o, depth) ==> Dist(p, o) == Abs(p.hall - o.room) + o.slot
    ensures RoomCell(p, depth) && RoomCell(o, depth) ==> Dist(p, o) == Abs(p.room - o.room) + p.slot + o.slot
    ensures Dist(p, o) >= 0
  {
  }

  /** The hall cells a pod may stop on: all but those in front of rooms. */
  const ValidHall: seq<Position> := [Position(1, 0, 0), Position(2, 0, 0), Position(4, 0, 0),
    Position(6, 0, 0), Position(8, 0, 0), Position(10, 0, 0), Position(11, 0, 0)]

  lemma ValidHallCells()
    ensures forall i :: 0 <= i < |ValidHall| ==> HallCell(ValidHall[i]) && !IsRoom(ValidHall[i].hall)
    ensures forall h :: 1 <= h <= 11 && !IsRoom(h) ==> Position(h, 0, 0) in ValidHall
  {
  }

  // ---------------------------------------------------------------- amphipods

  datatype Amphipod = Amphipod(kind: char, pos: Position, target: int, cost: int)

  /** A pod of kind A, B, C or D is headed for room 3, 5, 7 or 9 and pays
      1, 10, 100 or 1000 per step; any other kind gets neither. */
  function NewAmphipod(kind: char, pos: Position): (a: Amphipod)
    ensures a.kind == kind && a.pos == pos
  {
    match kind
    case 'A' => Amphipod(kind, pos, 3, 1)
    case 'B' => Amphipod(kind, pos, 5, 10)
    case 'C' => Amphipod(kind, pos, 7, 100)
    case 'D' => Amphipod(kind, pos, 9, 1000)
    case _ => Amphipod(kind, pos, 0, 0)
  }

  predicate Kind(c: char)
  {
    c == 'A' || c == 'B' || c == 'C' || c == 'D'
  }

  /** Each of the four kinds has a room of its own, and each kind pays ten
      times the step cost of the one before it. */
  lemma KindsAndRooms(p: Position, q: Position)
    ensures forall c :: Kind(c) ==> IsRoom(NewAmphipod(c, p).target) && NewAmphipod(c, p).cost > 0
    ensures forall c, d :: Kind(c) && Kind(d) && NewAmphipod(c, p).target == NewAmphipod(d, q).target ==> c == d
    ensures forall c :: !Kind(c) ==> NewAmphipod(c, p).target == 0 && NewAmphipod(c, p).cost == 0
    ensures NewAmphipod('B', p).cost == 10 * NewAmphipod('A', q).cost
    ensures NewAmphipod('C', p).cost == 10 * NewAmphipod('B', q).cost
    ensures NewAmphipod('D', p).cost == 10 * NewAmphipod('C', q).cost
    ensures NewAmphipod('A', p).target == 3 && NewAmphipod('D', p).target == 9
  {
  }

  // ---------------------------------------------------------------- boards

  datatype Board = Board(pods: seq<Amphipod>, depth: int, cost: int)

  /** A pod made by `NewAmphipod` from one of the four kinds, standing on a
      hall cell or a room slot. */
  predicate GoodPod(a: Amphipod, depth: int)
  {
    Kind(a.kind) && a == NewAmphipod(a.kind, a.pos) && (HallCell(a.pos) || RoomCell(a.pos, depth))
  }

  /** No pod stands on a cell that is both a hall cell and a room slot. */
  predicate CellsValid(b: Board)
  {
    forall k :: 0 <= k < |b.pods| ==> ValidPos(b.pods[k].pos)
  }

  /** What every board of the puzzle satisfies: rooms at least one deep,
      every pod a good pod, no two pods on one cell. */
  predicate WellFormed(b: Board)
  {
    b.depth >= 1 && CellsValid(b)
    && (forall k :: 0 <= k < |b.pods| ==> GoodPod(b.pods[k], b.depth))
    && (forall k, l :: 0 <= k < l < |b.pods| ==> b.pods[k].pos != b.pods[l].pos)
  }

  /** The seen-set key of a board: its pods' cells in order. The source
      renders each cell as text; on hall cells and room slots that text
      determines the cell, so the cells themselves serve as the key. */
  function Key(b: Board): (k: seq<Position>)
    ensures |k| == |b.pods| && forall i :: 0 <= i < |k| ==> k[i] == b.pods[i].pos
  {
    seq(|b.pods|, i requires 0 <= i < |b.pods| => b.pods[i].pos)
  }

  /** Every pod is in its own room. */
  predicate Satisfied(b: Board)
  {
    forall k :: 0 <= k < |b.pods| ==> b.pods[k].pos.room == b.pods[k].target
  }

  /** Every pod headed for `room` is in it. */
  predicate RoomSatisfied(b: Board, room: int)
  {
    forall k :: 0 <= k < |b.pods| && b.pods[k].target == room ==> b.pods[k].pos.room == room
  }

  /** A board is satisfied exactly when each of its pods' rooms is. */
  lemma SatisfiedRooms(b: Board)
    ensures Satisfied(b) <==> forall k :: 0 <= k < |b.pods| ==> RoomSatisfied(b, b.pods[k].target)
  {
    if forall k :: 0 <= k < |b.pods| ==> RoomSatisfied(b, b.pods[k].target) {
      forall k | 0 <= k < |b.pods|
        ensures b.pods[k].pos.room == b.pods[k].target
      {
        assert RoomSatisfied(b, b.pods[k].target);
      }
    }
  }

  // ---------------------------------------------------------------- one move

  /** Pod `o`, standing on a hall cell, lies on the hallway stretch between
      the columns of `from` and `to`, ends included. */
  predicate Blocks(from: Position, to: Position, o: Position)
  {
    (X(from) < X(to) && X(from) <= X(o) <= X(to))
    || (X(from) > X(to) && X(from) >= X(o) >= X(to))
  }

  /** What another pod `o` must not do to the move of `a` to `p`: stand on
      `p`, stand in the hallway on the way, stand in the target room while
      being of another kind or above `p`, or stand above `a` in its room. */
  predicate Permits(a: Amphipod, p: Position, o: Amphipod)
  {
    o.pos != p
    && (o.pos.hall > 0 ==> !Blocks(a.pos, p, o.pos))
    && (o.pos.room > 0 && o.pos.room == p.room ==> o.kind == a.kind && o.pos.slot >= p.slot)
    && !(o.pos.room > 0 && o.pos.room == a.pos.room && o.pos.slot < a.pos.slot)
  }

  /** Some pod other than `a` among the first `n` stands in slot `s` of the
      room of `p`. */
  predicate Occupied(b: Board, a: Amphipod, p: Position, n: int, s: int)
    requires 0 <= n <= |b.pods|
  {
    exists l :: 0 <= l < n && b.pods[l] != a && b.pods[l].pos.room > 0
      && b.pods[l].pos.room == p.room && b.pods[l].pos.slot == s
  }

  /** The move of pod `a` to cell `p` on board `b` is legal. */
  predicate Allowed(b: Board, a: Amphipod, p: Position)
  {
    p != a.pos
    && !(p.hall > 0 && a.pos.hall > 0)
    && !(p.room > 0 && a.target != p.room)
    && !IsRoom(p.hall)
    && (forall l :: 0 <= l < |b.pods| && b.pods[l] != a ==> Permits(a, p, b.pods[l]))
    && (p.slot > 0 ==> forall s :: p.slot < s <= b.depth ==> Occupied(b, a, p, |b.pods|, s))
  }

  /** Decides `Allowed`, marking in `sawSlot` the slots of the target room
      that other pods fill. */
  method ValidMove(b: Board, a: Amphipod, p: Position) returns (ok: bool)
    requires WellFormed(b)
    ensures ok == Allowed(b, a, p)
  {
    var ap := a.pos;
    if p == ap {
      return false;
    }
    if p.hall > 0 && ap.hall > 0 {
      return false;
    }
    if p.room > 0 && a.target != p.room {
      return false;
    }
    if p.hall == 3 || p.hall == 5 || p.hall == 7 || p.hall == 9 {
      return false;
    }
    var sawSlot := new bool[b.depth + 1](_ => false);
    var k := 0;
    while k < |b.pods|
      invariant 0 <= k <= |b.pods|
      invariant forall l :: 0 <= l < k && b.pods[l] != a ==> Permits(a, p, b.pods[l])
      invariant forall s :: 0 <= s <= b.depth ==> (sawSlot[s] <==> Occupied(b, a, p, k, s))
    {
      var o := b.pods[k];
      if o != a {
        var op := o.pos;
        if op == p {
          return false;
        }
        if op.hall > 0 {
          if X(ap) < X(p) && X(ap) <= X(op) && X(op) <= X(p) {
            return false;
          }
          if X(ap) > X(p) && X(ap) >= X(op) && X(op) >= X(p) {
            return false;
          }
        }
        if op.room > 0 && op.room == p.room {
          if o.kind != a.kind {
            return false;
          }
          if op.slot < p.slot {
            return false;
          }
          sawSlot[op.slot] := true;
        }
        if op.room > 0 && op.room == ap.room && op.slot < ap.slot {
          return false;
        }
      }
      k := k + 1;
    }
    if p.slot > 0 {
      var i := p.slot + 1;
      while i <= b.depth
        invariant p.slot + 1 <= i
        invariant forall s :: p.slot < s < i && s <= b.depth ==> Occupied(b, a, p, |b.pods|, s)
      {
        if !sawSlot[i] {
          return false;
        }
        i := i + 1;
      }
    }
    return true;
  }

  /** A pod other than pod `i`, of its kind, stands in slot `s` of `room`. */
  predicate SameKindAt(b: Board, i: int, room: int, s: int)
    requires 0 <= i < |b.pods|
  {
    exists k :: 0 <= k < |b.pods| && k != i && b.pods[k].pos == Position(0, room, s)
      && b.pods[k].kind == b.pods[i].kind
  }

  /** What a legal move implies: the pod moves, never from hall cell to
      hall cell, never to the cell in front of a room, and lands on a free
      cell with no hall pod on the way and no pod above it in its room. A
      move into a room goes to the pod's own room, which then holds only
      pods of its kind, and every slot below the one it takes is filled. */
  lemma AllowedMeans(b: Board, i: int, p: Position)
    requires WellFormed(b) && 0 <= i < |b.pods| && Allowed(b, b.pods[i], p)
    ensures p != b.pods[i].pos && !(HallCell(p) && HallCell(b.pods[i].pos))
    ensures p.hall != 3 && p.hall != 5 && p.hall != 7 && p.hall != 9
    ensures forall k :: 0 <= k < |b.pods| && k != i ==> b.pods[k].pos != p
    ensures forall k :: (0 <= k < |b.pods| && k != i && HallCell(b.pods[k].pos)
      ==> !Blocks(b.pods[i].pos, p, b.pods[k].pos))
    ensures forall k :: (0 <= k < |b.pods| && k != i && b.pods[k].pos.room > 0 && b.pods[k].pos.room == b.pods[i].pos.room
      ==> b.pods[k].pos.slot > b.pods[i].pos.slot)
    ensures p.room > 0 ==> p.room == b.pods[i].target
    ensures p.room > 0 ==> forall k :: (0 <= k < |b.pods| && k != i && b.pods[k].pos.room == p.room
      ==> b.pods[k].kind == b.pods[i].kind)
    ensures p.slot > 0 ==> forall s :: p.slot < s <= b.depth ==> SameKindAt(b, i, p.room, s)
  {
    var a := b.pods[i];
    forall k | 0 <= k < |b.pods| && k != i
      ensures b.pods[k] != a
    {
      if k < i {
        assert b.pods[k].pos != b.pods[i].pos;
      } else {
        assert b.pods[i].pos != b.pods[k].pos;
      }
    }
    if p.slot > 0 {
      forall s | p.slot < s <= b.depth
        ensures SameKindAt(b, i, p.room, s)
      {
        assert Occupied(b, a, p, |b.pods|, s);
        var l :| 0 <= l < |b.pods| && b.pods[l] != a && b.pods[l].pos.room > 0
          && b.pods[l].pos.room == p.room && b.pods[l].pos.slot == s;
        assert Permits(a, p, b.pods[l]);
        assert RoomCell(b.pods[l].pos, b.depth);
        assert l != i && b.pods[l].pos == Position(0, p.room, s);
      }
    }
  }

  /** Pod `i` moved to `p`, paying its step cost for the distance. */
  function Move(b: Board, i: int, p: Position): (m: Board)
    requires 0 <= i < |b.pods| && ValidPos(b.pods[i].pos) && ValidPos(p)
    ensures |m.pods| == |b.pods| && m.depth == b.depth
  {
    var a := b.pods[i];
    Board(b.pods[i := a.(pos := p)], b.depth, a.cost * Dist(a.pos, p) + b.cost)
  }

  /** Only pod `i` changes, and only its cell; the cost rises by the pod's
      step cost times the distance, and a legal move to a hall cell or a
      room slot leaves a well-formed board. */
  lemma MoveKeepsWellFormed(b: Board, i: int, p: Position)
    requires WellFormed(b) && 0 <= i < |b.pods| && Allowed(b, b.pods[i], p)
    requires p in ValidHall || RoomCell(p, b.depth)
    ensures WellFormed(Move(b, i, p))
    ensures Move(b, i, p).pods[i].pos == p && Move(b, i, p).pods[i].kind == b.pods[i].kind
    ensures forall k :: 0 <= k < |b.pods| && k != i ==> Move(b, i, p).pods[k] == b.pods[k]
    ensures Move(b, i, p).cost - b.cost == b.pods[i].cost * Dist(b.pods[i].pos, p) > 0
  {
    ValidHallCells();
    AllowedMeans(b, i, p);
    var m := Move(b, i, p);
    forall k, l | 0 <= k < l < |m.pods|
      ensures m.pods[k].pos != m.pods[l].pos
    {
      if k != i && l != i {
        assert m.pods[k].pos == b.pods[k].pos && m.pods[l].pos == b.pods[l].pos;
      }
    }
    DistMeaning(b.pods[i].pos, p, b.depth);
  }

  /** The deepest slot, `j` or above, of the pod's own room that it may
      move to. */
  function RoomMove(b: Board, a: Amphipod, j: int): (r: Option<int>)
    decreases j
  {
    if j <= 0 then None
    else if Allowed(b, a, Position(0, a.target, j)) then Some(j)
    else RoomMove(b, a, j - 1)
  }

  /** `RoomMove` finds the deepest allowed slot, or reports that there is
      none. */
  lemma {:induction false} RoomMoveDeepest(b: Board, a: Amphipod, j: int)
    decreases j
    ensures RoomMove(b, a, j).Some? ==> (1 <= RoomMove(b, a, j).value <= j
      && Allowed(b, a, Position(0, a.target, RoomMove(b, a, j).value)))
    ensures RoomMove(b, a, j).Some? ==> forall s :: RoomMove(b, a, j).value < s <= j ==> !Allowed(b, a, Position(0, a.target, s))
    ensures RoomMove(b, a, j).None? ==> forall s :: 1 <= s <= j ==> !Allowed(b, a, Position(0, a.target, s))
  {
    if j > 0 && !Allowed(b, a, Position(0, a.target, j)) {
      RoomMoveDeepest(b, a, j - 1);
    }
  }

  /** The moves of pod `i` into its room: none if it is there already,
      else one to the deepest slot it may take, if any. */
  function RoomMoves(b: Board, i: int): (r: seq<Board>)
    requires CellsValid(b) && 0 <= i < |b.pods|
  {
    var a := b.pods[i];
    if a.pos.room != a.target then
      match RoomMove(b, a, b.depth)
      case Some(s) => [Move(b, i, Position(0, a.target, s))]
      case None => []
    else []
  }

  /** The moves of pod `i` to the first `n` stopping cells, in hallway
      order, that it may move to. */
  function HallMoves(b: Board, i: int, n: nat): (r: seq<Board>)
    requires CellsValid(b) && 0 <= i < |b.pods| && n <= |ValidHall|
  {
    if n == 0 then []
    else if Allowed(b, b.pods[i], ValidHall[n - 1]) then HallMoves(b, i, n - 1) + [Move(b, i, ValidHall[n - 1])]
    else HallMoves(b, i, n - 1)
  }

  /** A pod leaves a room for the hallway only when the room is the wrong
      one or its own room still misses pods of its kind. */
  predicate MayLeave(b: Board, a: Amphipod)
  {
    a.pos.room > 0 && (a.pos.room != a.target || !RoomSatisfied(b, a.target))
  }

  /** The hall moves of pod `i`, if it may leave its room. */
  function LeaveMoves(b: Board, i: int): seq<Board>
    requires CellsValid(b) && 0 <= i < |b.pods|
  {
    if MayLeave(b, b.pods[i]) then HallMoves(b, i, |ValidHall|) else []
  }

  function PodMoves(b: Board, i: int): seq<Board>
    requires CellsValid(b) && 0 <= i < |b.pods|
  {
    RoomMoves(b, i) + LeaveMoves(b, i)
  }

  /** The moves of the first `n` pods, pod by pod. */
  function Moves(b: Board, n: nat): seq<Board>
    requires CellsValid(b) && n <= |b.pods|
  {
    if n == 0 then [] else Moves(b, n - 1) + PodMoves(b, n - 1)
  }

  /** The room move of pod `i`, trying its room's slots from the deepest
      up. */
  method DeepestRoomMove(b: Board, i: int) returns (room: seq<Board>)
    requires WellFormed(b) && 0 <= i < |b.pods|
    ensures room == RoomMoves(b, i)
  {
    var a := b.pods[i];
    room := [];
    if a.pos.room != a.target {
      var j := b.depth;
      while j > 0
        invariant 0 <= j <= b.depth
        invariant RoomMove(b, a, b.depth) == RoomMove(b, a, j)
      {
        var p := Position(0, a.target, j);
        var ok := ValidMove(b, a, p);
        if ok {
          room := [Move(b, i, p)];
          return;
        }
        j := j - 1;
      }
    }
  }

  /** The hall moves of pod `i`, if it may leave its room. */
  method HallMovesOf(b: Board, i: int) returns (hall: seq<Board>)
    requires WellFormed(b) && 0 <= i < |b.pods|
    ensures hall == LeaveMoves(b, i)
  {
    var a := b.pods[i];
    hall := [];
    if a.pos.room > 0 && (a.pos.room != a.target || !RoomSatisfied(b, a.target)) {
      var h := 0;
      while h < |ValidHall|
        invariant 0 <= h <= |ValidHall|
        invariant hall == HallMoves(b, i, h)
      {
        var ok := ValidMove(b, a, ValidHall[h]);
        if ok {
          hall := hall + [Move(b, i, ValidHall[h])];
        }
        h := h + 1;
      }
    }
  }

  /** The room move and the hall moves of pod `i`. */
  method PodMovesOf(b: Board, i: int) returns (ms: seq<Board>)
    requires WellFormed(b) && 0 <= i < |b.pods|
    ensures ms == PodMoves(b, i)
  {
    var room := DeepestRoomMove(b, i);
    var hall := HallMovesOf(b, i);
    ms := room + hall;
  }

  /** Appends the moves of pod `i` to those of the pods before it. */
  method AddPodMoves(b: Board, i: nat, res0: seq<Board>) returns (res: seq<Board>)
    requires WellFormed(b) && i < |b.pods| && res0 == Moves(b, i)
    ensures res == Moves(b, i + 1)
  {
    var ms := PodMovesOf(b, i);
    res := res0 + ms;
  }

  /** Every successor board: for each pod, its room move and its hall
      moves. */
  method ValidMoves(b: Board) returns (res: seq<Board>)
    requires WellFormed(b)
    ensures res == Moves(b, |b.pods|)
  {
    res := [];
    for i := 0 to |b.pods|
      invariant res == Moves(b, i)
    {
      res := AddPodMoves(b, i, res);
    }
  }

  // ---------------------------------------------------------------- remaining cost

  /** The pods among the first `n` of `ps` headed for room `t`, in order. */
  function Group(ps: seq<Amphipod>, t: int, n: nat): seq<Amphipod>
    requires n <= |ps|
  {
    if n == 0 then []
    else Group(ps, t, n - 1) + if ps[n - 1].target == t then [ps[n - 1]] else []
  }

  /** The group holds exactly the pods headed for `t`. */
  lemma {:induction false} GroupMembers(ps: seq<Amphipod>, t: int, n: nat)
    requires n <= |ps|
    ensures forall k :: 0 <= k < n && ps[k].target == t ==> ps[k] in Group(ps, t, n)
    ensures forall a :: a in Group(ps, t, n) ==> a.target == t
    ensures !Aims(ps, t, n) ==> Group(ps, t, n) == []
  {
    if n > 0 {
      GroupMembers(ps, t, n - 1);
    }
  }

  /** The rooms the first `n` pods of `ps` are headed for, each once, in
      order of first appearance. */
  function Targets(ps: seq<Amphipod>, n: nat): seq<int>
    requires n <= |ps|
  {
    if n == 0 then []
    else
      var ts := Targets(ps, n - 1);
      if ps[n - 1].target in ts then ts else ts + [ps[n - 1].target]
  }

  /** Some pod among the first `n` of `ps` is headed for room `t`. */
  predicate Aims(ps: seq<Amphipod>, t: int, n: nat)
    requires n <= |ps|
  {
    exists k :: 0 <= k < n && ps[k].target == t
  }

  /** The rooms listed are exactly those some pod is headed for, and none
      is listed twice. */
  lemma {:induction false} TargetsMeaning(ps: seq<Amphipod>, n: nat)
    requires n <= |ps|
    ensures forall t :: t in Targets(ps, n) <==> Aims(ps, t, n)
    ensures forall i, j :: 0 <= i < j < |Targets(ps, n)| ==> Targets(ps, n)[i] != Targets(ps, n)[j]
  {
    if n > 0 {
      TargetsMeaning(ps, n - 1);
      forall t | Aims(ps, t, n)
        ensures Aims(ps, t, n - 1) || ps[n - 1].target == t
      {
        var k :| 0 <= k < n && ps[k].target == t;
      }
    }
  }

  /** A pod of `g` stands in slot `s` of room `t`. */
  predicate Filled(g: seq<Amphipod>, t: int, s: int)
  {
    exists a :: a in g && a.pos.room == t && a.pos.slot == s
  }

  /** How many of the slots `lo+1..hi` of room `t` pods of `g` fill. */
  function FilledCount(g: seq<Amphipod>, t: int, lo: int, hi: int): (n: nat)
    decreases hi - lo
    ensures n <= if lo < hi then hi - lo else 0
  {
    if lo >= hi then 0
    else (if Filled(g, t, lo + 1) then 1 else 0) + FilledCount(g, t, lo + 1, hi)
  }

  /** The estimate for the pods of `g` once `n` of them are looked at, with
      `dc` starting at `d`: each pod outside room `t`, or above its slot
      `d`, pays for walking to the room's column and `dc` slots down, and
      `dc` then drops by one. Returns the estimate and the last `dc`. */
  function Charge(g: seq<Amphipod>, t: int, d: int, n: nat): (int, int)
    requires n <= |g|
  {
    if n == 0 then (0, d)
    else
      var (res, dc) := Charge(g, t, d, n - 1);
      var a := g[n - 1];
      if a.pos.room != t || a.pos.slot < d then
        (res + a.cost * (Abs(X(a.pos) - t) + dc), dc - 1)
      else (res, dc)
  }

  /** The lower-bound estimate for room `t`: nothing if its pods fill it,
      else the charge of its pods against the `d` unfilled slots. */
  function RoomCost(b: Board, t: int): int
  {
    var g := Group(b.pods, t, |b.pods|);
    var d := b.depth - FilledCount(g, t, 0, b.depth);
    if d == 0 then 0 else Charge(g, t, d, |g|).0
  }

  /** The estimates of the rooms `ts[..n]`, added up. */
  function CostOver(b: Board, ts: seq<int>, n: nat): int
    requires n <= |ts|
  {
    if n == 0 then 0 else CostOver(b, ts, n - 1) + RoomCost(b, ts[n - 1])
  }

  /** The search's estimate of the cost still to pay. */
  function MinRemaining(b: Board): int
  {
    CostOver(b, Targets(b.pods, |b.pods|), |Targets(b.pods, |b.pods|)|)
  }

  /** Every slot `lo+1..hi` filled: the count is the number of slots. */
  lemma {:induction false} AllFilled(g: seq<Amphipod>, t: int, lo: int, hi: int)
    requires lo <= hi && forall s :: lo < s <= hi ==> Filled(g, t, s)
    ensures FilledCount(g, t, lo, hi) == hi - lo
    decreases hi - lo
  {
    if lo < hi {
      AllFilled(g, t, lo + 1, hi);
    }
  }

  /** Each pod's own room has all its slots filled by pods of its kind. */
  predicate Full(b: Board)
  {
    forall k, s :: 0 <= k < |b.pods| && 1 <= s <= b.depth ==> OwnAt(b, b.pods[k].target, s)
  }

  /** A pod headed for room `t` stands in its slot `s`. */
  predicate OwnAt(b: Board, t: int, s: int)
  {
    exists l :: 0 <= l < |b.pods| && b.pods[l].target == t && b.pods[l].pos == Position(0, t, s)
  }

  /** With every room full of its own pods the estimate is 0. */
  lemma {:induction false} FullCostsNothing(b: Board)
    requires b.depth >= 0 && Full(b)
    ensures MinRemaining(b) == 0
  {
    var ts := Targets(b.pods, |b.pods|);
    forall n | 0 <= n <= |ts|
      ensures CostOver(b, ts, n) == 0
    {
      FullPrefix(b, ts, n);
    }
  }

  lemma {:induction false} FullPrefix(b: Board, ts: seq<int>, n: nat)
    requires b.depth >= 0 && Full(b) && ts == Targets(b.pods, |b.pods|) && n <= |ts|
    ensures CostOver(b, ts, n) == 0
  {
    if n > 0 {
      FullPrefix(b, ts, n - 1);
      var t := ts[n - 1];
      TargetsMeaning(b.pods, |b.pods|);
      assert Aims(b.pods, t, |b.pods|);
      var k :| 0 <= k < |b.pods| && b.pods[k].target == t;
      var g := Group(b.pods, t, |b.pods|);
      GroupMembers(b.pods, t, |b.pods|);
      forall s | 0 < s <= b.depth
        ensures Filled(g, t, s)
      {
        assert OwnAt(b, t, s);
        var l :| 0 <= l < |b.pods| && b.pods[l].target == t && b.pods[l].pos == Position(0, t, s);
        assert b.pods[l] in g;
      }
      AllFilled(g, t, 0, b.depth);
    }
  }

  /** The pods headed for room `t`, by index. */
  function Headed(b: Board, t: int): set<nat>
  {
    set k: nat | k < |b.pods| && b.pods[k].target == t
  }

  /** Each kind present has exactly as many pods as a room has slots. */
  predicate Stocked(b: Board)
  {
    forall k :: 0 <= k < |b.pods| ==> |Headed(b, b.pods[k].target)| == b.depth
  }

  /** The slots 1..n. */
  function SlotRange(n: nat): (r: set<int>)
    ensures forall s :: s in r <==> 1 <= s <= n
    ensures |r| == n
  {
    if n == 0 then {} else SlotRange(n - 1) + {n}
  }

  function SlotsOf(b: Board, ks: set<nat>): set<int>
    requires forall k :: k in ks ==> k < |b.pods|
  {
    set k | k in ks :: b.pods[k].pos.slot
  }

  /** Pods on distinct cells of one room fill as many slots as there are
      pods. */
  lemma {:induction false} SlotsCount(b: Board, t: int, ks: set<nat>)
    requires WellFormed(b)
    requires forall k :: k in ks ==> k < |b.pods| && b.pods[k].pos.room == t && b.pods[k].pos.hall == 0
    ensures |SlotsOf(b, ks)| == |ks|
    decreases ks
  {
    if ks != {} {
      var x :| x in ks;
      var rest := ks - {x};
      SlotsCount(b, t, rest);
      assert SlotsOf(b, ks) == SlotsOf(b, rest) + {b.pods[x].pos.slot};
    }
  }

  /** A subset as large as its superset is the whole of it. */
  lemma {:induction false} SameSize(a: set<int>, c: set<int>)
    requires a <= c && |a| == |c|
    ensures a == c
  {
    if x :| x in c && x !in a {
      assert a <= c - {x};
      SubsetSmaller(a, c - {x});
    } else {
      assert forall x :: x in c ==> x in a;
    }
  }

  lemma {:induction false} SubsetSmaller(a: set<int>, c: set<int>)
    requires a <= c
    ensures |a| <= |c|
  {
    assert c == a + (c - a);
  }

  /** On a well-formed board where each kind has as many pods as a room has
      slots, a satisfied board has every room full of its own pods, so the
      estimate on it is 0. */
  lemma SatisfiedIsFull(b: Board)
    requires WellFormed(b) && Satisfied(b) && Stocked(b)
    ensures Full(b) && MinRemaining(b) == 0
  {
    forall k, s | 0 <= k < |b.pods| && 1 <= s <= b.depth
      ensures OwnAt(b, b.pods[k].target, s)
    {
      var t := b.pods[k].target;
      var ks := Headed(b, t);
      forall l | l in ks
        ensures l < |b.pods| && b.pods[l].pos.room == t && b.pods[l].pos.hall == 0
      {
        assert GoodPod(b.pods[l], b.depth);
        KindsAndRooms(b.pods[l].pos, b.pods[l].pos);
      }
      SlotsCount(b, t, ks);
      assert SlotsOf(b, ks) <= SlotRange(b.depth) by {
        forall l | l in ks
          ensures 1 <= b.pods[l].pos.slot <= b.depth
        {
          assert GoodPod(b.pods[l], b.depth);
          KindsAndRooms(b.pods[l].pos, b.pods[l].pos);
        }
      }
      SameSize(SlotsOf(b, ks), SlotRange(b.depth));
      assert s in SlotsOf(b, ks);
      var l :| l in ks && b.pods[l].pos.slot == s;
      assert b.pods[l].pos == Position(0, t, s);
    }
    FullCostsNothing(b);
  }

  /** Decides `Filled` by looking through the pods of `g`. */
  method SlotFilled(g: seq<Amphipod>, t: int, s: int) returns (found: bool)
    ensures found == Filled(g, t, s)
  {
    found := false;
    var k := 0;
    while k < |g|
      invariant 0 <= k <= |g|
      invariant forall l :: 0 <= l < k ==> !(g[l].pos.room == t && g[l].pos.slot == s)
    {
      if g[k].pos.room == t && g[k].pos.slot == s {
        return true;
      }
      k := k + 1;
    }
  }

  /** Counts down from `depth` once for each filled slot, deepest first. */
  method Unfilled(b: Board, t: int, g: seq<Amphipod>) returns (d: int)
    requires b.depth >= 0
    ensures d == b.depth - FilledCount(g, t, 0, b.depth)
  {
    d := b.depth;
    var i := b.depth;
    while i > 0
      invariant 0 <= i <= b.depth
      invariant d == b.depth - FilledCount(g, t, i, b.depth)
    {
      var f := SlotFilled(g, t, i);
      if f {
        d := d - 1;
      }
      i := i - 1;
    }
  }

  /** Charges the pods of `g` against the `d` unfilled slots of room `t`. */
  method ChargePods(g: seq<Amphipod>, t: int, d: int) returns (res: int)
    ensures res == Charge(g, t, d, |g|).0
  {
    res := 0;
    var dc := d;
    var k := 0;
    while k < |g|
      invariant 0 <= k <= |g|
      invariant (res, dc) == Charge(g, t, d, k)
    {
      var a := g[k];
      if a.pos.room != t || a.pos.slot < d {
        res := res + a.cost * (Abs(X(a.pos) - t) + dc);
        dc := dc - 1;
      }
      k := k + 1;
    }
  }

  /** The estimate for room `t` from its pods `g`; with no slots to count
      (a negative depth) `d` stays at `depth`. */
  method RoomEstimate(b: Board, t: int, g: seq<Amphipod>) returns (res: int)
    requires g == Group(b.pods, t, |b.pods|)
    ensures res == RoomCost(b, t)
  {
    var d := b.depth;
    if b.depth >= 0 {
      d := Unfilled(b, t, g);
    }
    res := 0;
    if d != 0 {
      res := ChargePods(g, t, d);
    }
  }

  /** The pods grouped by target room: the rooms in order of first
      appearance, and each room's pods in order. */
  method GroupPods(ps: seq<Amphipod>) returns (order: seq<int>, targets: map<int, seq<Amphipod>>)
    ensures order == Targets(ps, |ps|)
    ensures forall t :: t in targets <==> t in order
    ensures forall t :: t in targets ==> targets[t] == Group(ps, t, |ps|)
  {
    order := [];
    targets := map[];
    var k := 0;
    while k < |ps|
      invariant 0 <= k <= |ps|
      invariant order == Targets(ps, k)
      invariant forall t :: t in targets <==> t in order
      invariant forall t :: t in targets ==> targets[t] == Group(ps, t, k)
    {
      var a := ps[k];
      if a.target !in targets {
        TargetsMeaning(ps, k);
        GroupMembers(ps, a.target, k);
        targets := targets[a.target := []];
        order := order + [a.target];
      }
      targets := targets[a.target := targets[a.target] + [a]];
      k := k + 1;
    }
  }

  /** Adds up the estimates of the rooms of `order`, with their pods
      taken from `targets`. */
  method SumRooms(b: Board, order: seq<int>, targets: map<int, seq<Amphipod>>) returns (res: int)
    requires forall j :: 0 <= j < |order| ==> order[j] in targets && targets[order[j]] == Group(b.pods, order[j], |b.pods|)
    ensures res == CostOver(b, order, |order|)
  {
    res := 0;
    var j := 0;
    while j < |order|
      invariant 0 <= j <= |order|
      invariant res == CostOver(b, order, j)
    {
      var c := RoomEstimate(b, order[j], targets[order[j]]);
      res := res + c;
      j := j + 1;
    }
  }

  /** Groups the pods by target room, then adds up the rooms' estimates. */
  method MinRemainingCost(b: Board) returns (res: int)
    ensures res == MinRemaining(b)
  {
    var order, targets := GroupPods(b.pods);
    assert forall j :: 0 <= j < |order| ==> order[j] in order;
    res := SumRooms(b, order, targets);
  }

  // ---------------------------------------------------------------- successors

  /** The hall moves of pod `i` are exactly its legal moves to the first
      `n` stopping cells. */
  lemma {:induction false} HallMovesAre(b: Board, i: int, n: nat)
    requires WellFormed(b) && 0 <= i < |b.pods| && n <= |ValidHall|
    ensures forall j :: 0 <= j < |HallMoves(b, i, n)| ==> HallMoveTo(b, i, n, HallMoves(b, i, n)[j])
  {
    if n > 0 {
      HallMovesAre(b, i, n - 1);
      var prev := HallMoves(b, i, n - 1);
      forall j | 0 <= j < |prev|
        ensures HallMoveTo(b, i, n, prev[j])
      {
        assert HallMoveTo(b, i, n - 1, prev[j]);
        var h' :| 0 <= h' < n - 1 && Allowed(b, b.pods[i], ValidHall[h']) && prev[j] == Move(b, i, ValidHall[h']);
        assert 0 <= h' < n;
      }
    }
  }

  /** Hall moves leave well-formed boards. */
  lemma {:induction false} HallMovesWellFormed(b: Board, i: int, n: nat)
    requires WellFormed(b) && 0 <= i < |b.pods| && n <= |ValidHall|
    ensures forall j :: 0 <= j < |HallMoves(b, i, n)| ==> WellFormed(HallMoves(b, i, n)[j])
  {
    if n > 0 {
      HallMovesWellFormed(b, i, n - 1);
      if Allowed(b, b.pods[i], ValidHall[n - 1]) {
        MoveKeepsWellFormed(b, i, ValidHall[n - 1]);
      }
    }
  }

  /** Every legal move of pod `i` to one of the first `n` stopping cells
      is among its hall moves. */
  lemma {:induction false} HallMovesAll(b: Board, i: int, n: nat)
    requires WellFormed(b) && 0 <= i < |b.pods| && n <= |ValidHall|
    ensures forall h :: 0 <= h < n && Allowed(b, b.pods[i], ValidHall[h]) ==> Move(b, i, ValidHall[h]) in HallMoves(b, i, n)
  {
    if n > 0 {
      HallMovesAll(b, i, n - 1);
    }
  }

  /** `m` is pod `i`'s legal move to one of the first `n` stopping cells. */
  predicate HallMoveTo(b: Board, i: int, n: nat, m: Board)
    requires CellsValid(b) && 0 <= i < |b.pods| && n <= |ValidHall|
  {
    exists h :: 0 <= h < n && Allowed(b, b.pods[i], ValidHall[h]) && m == Move(b, i, ValidHall[h])
  }

  /** The room move of pod `i`, if any, is its legal move to the deepest
      slot of its own room it may take, and leaves a well-formed board. */
  lemma RoomMovesAre(b: Board, i: int)
    requires WellFormed(b) && 0 <= i < |b.pods|
    ensures |RoomMoves(b, i)| <= 1
    ensures RoomMoves(b, i) != [] ==> (b.pods[i].pos.room != b.pods[i].target
      && exists s :: (1 <= s <= b.depth && Allowed(b, b.pods[i], Position(0, b.pods[i].target, s))
        && RoomMoves(b, i)[0] == Move(b, i, Position(0, b.pods[i].target, s))
        && forall s' :: s < s' <= b.depth ==> !Allowed(b, b.pods[i], Position(0, b.pods[i].target, s'))))
    ensures b.pods[i].pos.room != b.pods[i].target && RoomMoves(b, i) == [] ==>
      forall s :: 1 <= s <= b.depth ==> !Allowed(b, b.pods[i], Position(0, b.pods[i].target, s))
    ensures RoomMoves(b, i) != [] ==> WellFormed(RoomMoves(b, i)[0])
  {
    var a := b.pods[i];
    RoomMoveDeepest(b, a, b.depth);
    if RoomMoves(b, i) != [] {
      var s := RoomMove(b, a, b.depth).value;
      assert GoodPod(a, b.depth);
      KindsAndRooms(a.pos, a.pos);
      MoveKeepsWellFormed(b, i, Position(0, a.target, s));
    }
  }

  /** Every successor is well-formed. */
  lemma {:induction false} MovesWellFormed(b: Board, n: nat)
    requires WellFormed(b) && n <= |b.pods|
    ensures forall j :: 0 <= j < |Moves(b, n)| ==> WellFormed(Moves(b, n)[j])
  {
    if n > 0 {
      MovesWellFormed(b, n - 1);
      PodMovesWellFormed(b, n - 1);
      var prev, last := Moves(b, n - 1), PodMoves(b, n - 1);
      forall j | 0 <= j < |prev + last|
        ensures WellFormed((prev + last)[j])
      {
        if j < |prev| {
          assert WellFormed(prev[j]);
        } else {
          assert WellFormed(last[j - |prev|]);
        }
      }
    }
  }

  lemma PodMovesWellFormed(b: Board, i: int)
    requires WellFormed(b) && 0 <= i < |b.pods|
    ensures forall j :: 0 <= j < |PodMoves(b, i)| ==> WellFormed(PodMoves(b, i)[j])
  {
    RoomMovesAre(b, i);
    HallMovesWellFormed(b, i, |ValidHall|);
    var room := RoomMoves(b, i);
    var hall := LeaveMoves(b, i);
    assert PodMoves(b, i) == room + hall;
    forall j | 0 <= j < |room + hall|
      ensures WellFormed((room + hall)[j])
    {
      if j < |room| {
        assert WellFormed(room[j]);
      } else {
        assert WellFormed(hall[j - |room|]);
      }
    }
  }

  // ---------------------------------------------------------------- search

  /** A sequence of well-formed boards from `initial`, each a successor of
      the one before. */
  ghost predicate IsPath(initial: Board, path: seq<Board>)
  {
    |path| >= 1 && path[0] == initial
    && (forall k :: 0 <= k < |path| ==> WellFormed(path[k]))
    && forall k :: 0 <= k < |path| - 1 ==> WellFormed(path[k]) && path[k + 1] in Moves(path[k], |path[k].pods|)
  }

  lemma PathExtend(initial: Board, path: seq<Board>, m: Board)
    requires IsPath(initial, path) && m in Moves(path[|path| - 1], |path[|path| - 1].pods|)
    ensures IsPath(initial, path + [m])
  {
    var b := path[|path| - 1];
    var ms := Moves(b, |b.pods|);
    MovesWellFormed(b, |b.pods|);
    var j :| 0 <= j < |ms| && ms[j] == m;
    assert WellFormed(ms[j]);
    var p := path + [m];
    forall k | 0 <= k < |p|
      ensures WellFormed(p[k])
    {
      if k < |path| {
        assert p[k] == path[k];
      }
    }
    forall k | 0 <= k < |p| - 1
      ensures WellFormed(p[k]) && p[k + 1] in Moves(p[k], |p[k].pods|)
    {
      if k < |path| - 1 {
        assert p[k] == path[k] && p[k + 1] == path[k + 1];
      } else {
        assert p[k] == b && p[k + 1] == m;
      }
    }
  }

  /** Every queued board has a path to it in `trail`. */
  ghost predicate Traced(initial: Board, q: map<int, seq<Board>>, trail: map<Board, seq<Board>>)
  {
    (forall c, k :: c in q && 0 <= k < |q[c]| ==> q[c][k] in trail)
    && forall m :: m in trail ==> IsPath(initial, trail[m]) && trail[m][|trail[m]| - 1] == m
  }

  /** Each key put on the queue is in `seen`, at a priority no higher than
      any it was queued with. */
  ghost predicate SeenBelow(seen: map<seq<Position>, int>, pushed: seq<(seq<Position>, int)>)
  {
    forall i :: 0 <= i < |pushed| ==> pushed[i].0 in seen && seen[pushed[i].0] <= pushed[i].1
  }

  /** A key is queued again only at a strictly lower priority. */
  ghost predicate Improving(pushed: seq<(seq<Position>, int)>)
  {
    forall i, j :: 0 <= i < j < |pushed| && pushed[i].0 == pushed[j].0 ==> pushed[j].1 < pushed[i].1
  }

  ghost predicate Ascending(popped: seq<int>)
  {
    forall i, j :: 0 <= i < j < |popped| ==> popped[i] <= popped[j]
  }

  /** The search: buckets of boards by cost plus estimate, taken in rising
      order; the first satisfied board popped gives the answer. A board
      already seen at no higher a priority is skipped. At most `fuel`
      boards are popped. The ghost results are the path to the winner, the
      priorities of the boards popped, and the keys queued with their
      priorities. */
  method Solve(initial: Board, fuel: nat) returns (r: Result<int>, ghost path: seq<Board>,
      ghost popped: seq<int>, ghost pushed: seq<(seq<Position>, int)>)
    requires WellFormed(initial)
    ensures r.Ok? ==> IsPath(initial, path) && Satisfied(path[|path| - 1]) && path[|path| - 1].cost == r.value
    ensures Ascending(popped) && Improving(pushed)
    ensures r.Err? ==> r.msg == "cost" || r.msg == "fuel"
  {
    var seen: map<seq<Position>, int> := map[Key(initial) := 0];
    var q: map<int, seq<Board>> := map[0 := [initial]];
    var pri := 0;
    var left := fuel;
    ghost var trail: map<Board, seq<Board>> := map[initial := [initial]];
    popped, pushed, path := [], [(Key(initial), 0)], [initial];
    while true
      invariant 0 <= pri <= 1000000
      invariant Traced(initial, q, trail) && SeenBelow(seen, pushed) && Improving(pushed)
      invariant Ascending(popped) && forall k :: 0 <= k < |popped| ==> popped[k] <= pri
      decreases left
    {
      var found;
      pri, found := NextBucket(q, pri);
      if !found {
        return Err("cost"), path, popped, pushed;
      }
      var i := 0;
      ghost var start := left;
      while i < |q[pri]|
        invariant pri in q && 0 <= i <= |q[pri]| && |q[pri]| > 0
        invariant i > 0 ==> left < start
        invariant left <= start
        invariant Traced(initial, q, trail) && SeenBelow(seen, pushed) && Improving(pushed)
        invariant Ascending(popped) && forall k :: 0 <= k < |popped| ==> popped[k] <= pri
        decreases left
      {
        if left == 0 {
          return Err("fuel"), path, popped, pushed;
        }
        left := left - 1;
        var b := q[pri][i];
        popped := popped + [pri];
        assert b in trail;
        if Satisfied(b) {
          return Ok(b.cost), trail[b], popped, pushed;
        }
        var moves := ValidMoves(b);
        q, seen, trail, pushed := Expand(initial, b, moves, q, seen, trail, pushed);
        i := i + 1;
      }
      q := q - {pri};
    }
  }

  /** Queues each successor `m` of `b` at cost plus estimate, unless its
      key was seen at no higher a priority. */
  method Expand(initial: Board, b: Board, moves: seq<Board>, q0: map<int, seq<Board>>,
      seen0: map<seq<Position>, int>, ghost trail0: map<Board, seq<Board>>, ghost pushed0: seq<(seq<Position>, int)>)
    returns (q: map<int, seq<Board>>, seen: map<seq<Position>, int>, ghost trail: map<Board, seq<Board>>,
      ghost pushed: seq<(seq<Position>, int)>)
    requires b in trail0 && WellFormed(b) && moves == Moves(b, |b.pods|)
    requires Traced(initial, q0, trail0) && SeenBelow(seen0, pushed0) && Improving(pushed0)
    ensures Traced(initial, q, trail) && SeenBelow(seen, pushed) && Improving(pushed)
    ensures Extends(q, q0)
  {
    q, seen, trail, pushed := q0, seen0, trail0, pushed0;
    var j := 0;
    while j < |moves|
      invariant 0 <= j <= |moves| && b in trail
      invariant Traced(initial, q, trail) && SeenBelow(seen, pushed) && Improving(pushed)
      invariant Extends(q, q0)
    {
      assert moves[j] in Moves(b, |b.pods|);
      var q1;
      q1, seen, trail, pushed := Offer(initial, b, moves[j], q, seen, trail, pushed);
      ExtendsTrans(q1, q, q0);
      q := q1;
      j := j + 1;
    }
  }

  /** Queues the successor `m` of `b` unless its key was seen at no higher
      a priority. */
  method Offer(initial: Board, b: Board, m: Board, q0: map<int, seq<Board>>,
      seen0: map<seq<Position>, int>, ghost trail0: map<Board, seq<Board>>, ghost pushed0: seq<(seq<Position>, int)>)
    returns (q: map<int, seq<Board>>, seen: map<seq<Position>, int>, ghost trail: map<Board, seq<Board>>,
      ghost pushed: seq<(seq<Position>, int)>)
    requires b in trail0 && WellFormed(b) && m in Moves(b, |b.pods|)
    requires Traced(initial, q0, trail0) && SeenBelow(seen0, pushed0) && Improving(pushed0)
    ensures Traced(initial, q, trail) && SeenBelow(seen, pushed) && Improving(pushed) && b in trail
    ensures Extends(q, q0)
  {
    q, seen, trail, pushed := q0, seen0, trail0, pushed0;
    var key := Key(m);
    var rem := MinRemainingCost(m);
    var c := m.cost + rem;
    if key !in seen || seen[key] > c {
      seen := seen[key := c];
      PathExtend(initial, trail0[b], m);
      trail := trail0[m := trail0[b] + [m]];
      var bucket := if c in q0 then q0[c] else [];
      q := q0[c := bucket + [m]];
      TracedPush(initial, q0, trail0, c, m, trail[m]);
      ExtendsPush(q0, c, m);
      pushed := pushed0 + [(key, c)];
      SeenPush(seen0, pushed0, key, c);
    }
  }

  lemma TracedPush(initial: Board, q: map<int, seq<Board>>, trail: map<Board, seq<Board>>, c: int, m: Board, path: seq<Board>)
    requires Traced(initial, q, trail) && IsPath(initial, path) && path[|path| - 1] == m
    ensures Traced(initial, q[c := (if c in q then q[c] else []) + [m]], trail[m := path])
  {
  }

  lemma SeenPush(seen: map<seq<Position>, int>, pushed: seq<(seq<Position>, int)>, key: seq<Position>, c: int)
    requires SeenBelow(seen, pushed) && Improving(pushed) && (key !in seen || seen[key] > c)
    ensures SeenBelow(seen[key := c], pushed + [(key, c)]) && Improving(pushed + [(key, c)])
  {
  }

  /** The first non-empty bucket at or above `pri`, if one lies at or
      below 1000000. */
  method NextBucket(q: map<int, seq<Board>>, pri: int) returns (p: int, found: bool)
    requires 0 <= pri <= 1000000
    ensures found ==> pri <= p <= 1000000 && p in q && |q[p]| > 0
    ensures found ==> forall c :: pri <= c < p ==> c !in q || |q[c]| == 0
    ensures !found ==> forall c :: pri <= c <= 1000000 ==> c !in q || |q[c]| == 0
  {
    p := pri;
    while p !in q || |q[p]| == 0
      invariant pri <= p <= 1000000
      invariant forall c :: pri <= c < p ==> c !in q || |q[c]| == 0
      decreases 1000000 - p
    {
      p := p + 1;
      if p > 1000000 {
        return p, false;
      }
    }
    found := true;
  }

  /** Every bucket of `q0` is a prefix of the same bucket of `q`. */
  ghost predicate Extends(q: map<int, seq<Board>>, q0: map<int, seq<Board>>)
  {
    q.Keys >= q0.Keys && forall c :: c in q0 ==> |q[c]| >= |q0[c]| && q[c][..|q0[c]|] == q0[c]
  }

  lemma ExtendsTrans(q2: map<int, seq<Board>>, q1: map<int, seq<Board>>, q0: map<int, seq<Board>>)
    requires Extends(q2, q1) && Extends(q1, q0)
    ensures Extends(q2, q0)
  {
    forall c | c in q0
      ensures |q2[c]| >= |q0[c]| && q2[c][..|q0[c]|] == q0[c]
    {
      assert q2[c][..|q0[c]|] == q2[c][..|q1[c]|][..|q0[c]|];
    }
  }

  lemma ExtendsPush(q: map<int, seq<Board>>, c: int, m: Board)
    ensures Extends(q[c := (if c in q then q[c] else []) + [m]], q)
  {
    var q1 := q[c := (if c in q then q[c] else []) + [m]];
    forall d | d in q
      ensures |q1[d]| >= |q[d]| && q1[d][..|q[d]|] == q[d]
    {
      if d == c {
        assert q1[d] == q[d] + [m];
      }
    }
  }
}
