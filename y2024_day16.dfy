/** 2024 day 16: the reindeer maze. A state is a position and a facing; a
    step forward costs 1 and a quarter turn costs 1000. The solver is a
    bucketed priority queue keyed by cost, with a record of the cheapest cost
    and the parents of every state reached. */
module Y2024Day16 {
  import opened Common

  // ---------------------------------------------------------------- directions

  /** `direction`: a (row, col) offset; only the four compass offsets are
      used. */
  datatype Dir = Dir(row: int, col: int)

  datatype Position = Position(row: int, col: int)

  datatype State = State(pos: Position, dir: Dir)

  const East := Dir(0, 1)
  const South := Dir(1, 0)
  const West := Dir(0, -1)
  const North := Dir(-1, 0)

  /** Go's zero `state{}`, the parent recorded for the start. */
  const Zero := State(Position(0, 0), Dir(0, 0))

  predicate Known(d: Dir)
  {
    d == East || d == South || d == West || d == North
  }

  /** `turnright`: a quarter turn clockwise, which in (row, col) offsets maps
      (r, c) to (c, −r); any other offset is fatal. */
  function TurnRight(d: Dir): (r: Option<Dir>)
    ensures r.Some? <==> Known(d)
    ensures r.Some? ==> Known(r.value) && r.value == Dir(d.col, -d.row)
  {
    if d == East then Some(South)
    else if d == South then Some(West)
    else if d == West then Some(North)
    else if d == North then Some(East)
    else None
  }

  /** `turnleft`: a quarter turn anticlockwise, (r, c) to (−c, r). */
  function TurnLeft(d: Dir): (r: Option<Dir>)
    ensures r.Some? <==> Known(d)
    ensures r.Some? ==> Known(r.value) && r.value == Dir(-d.col, d.row)
  {
    if d == East then Some(North)
    else if d == North then Some(West)
    else if d == West then Some(South)
    else if d == South then Some(East)
    else None
  }

  /** A left turn undoes a right turn and a right turn undoes a left turn. */
  lemma TurnsInverse(d: Dir)
    requires Known(d)
    ensures TurnLeft(TurnRight(d).value) == Some(d)
    ensures TurnRight(TurnLeft(d).value) == Some(d)
  {
  }

  /** Two right turns face the other way, and four face the same way. */
  lemma FourRights(d: Dir)
    requires Known(d)
    ensures var a := TurnRight(d).value; var b := TurnRight(a).value;
      b == Dir(-d.row, -d.col) && TurnRight(TurnRight(b).value).value == d
  {
  }

  /** `position.move`. */
  function Move(p: Position, d: Dir): (q: Position)
    ensures q.row - p.row == d.row && q.col - p.col == d.col
  {
    Position(p.row + d.row, p.col + d.col)
  }

  /** Moving and then moving the opposite way comes back. */
  lemma MoveBack(p: Position, d: Dir)
    ensures Move(Move(p, d), Dir(-d.row, -d.col)) == p
  {
  }

  /** `state.possible`: one cell forward facing the same way, or the same
      cell turned left or right; an unknown facing is fatal. */
  function Possible(s: State): (r: Option<(State, State, State)>)
    ensures r.Some? <==> Known(s.dir)
    ensures r.Some? ==> var (straight, left, right) := r.value;
      straight.dir == s.dir && straight.pos != s.pos &&
      Abs(straight.pos.row - s.pos.row) + Abs(straight.pos.col - s.pos.col) == 1 &&
      left.pos == s.pos && right.pos == s.pos &&
      Known(left.dir) && left.dir == Dir(-right.dir.row, -right.dir.col) &&
      left.dir.row * s.dir.row + left.dir.col * s.dir.col == 0
  {
    match (TurnLeft(s.dir), TurnRight(s.dir))
    case (Some(l), Some(rt)) =>
      Some((State(Move(s.pos, s.dir), s.dir), State(s.pos, l), State(s.pos, rt)))
    case _ => None
  }

  // ---------------------------------------------------------------- the grid

  /** `lookup`: the cell at p; a position outside the lines is Go's index
      panic. */
  function Lookup(grid: seq<string>, p: Position): (r: Result<char>)
    ensures r.Ok? <==> 0 <= p.row < |grid| && 0 <= p.col < |grid[p.row]|
  {
    if 0 <= p.row < |grid| && 0 <= p.col < |grid[p.row]| then Ok(grid[p.row][p.col])
    else Err("index out of range")
  }

  /** A cell inside the lines that is not a wall. */
  predicate Open(grid: seq<string>, p: Position)
  {
    0 <= p.row < |grid| && 0 <= p.col < |grid[p.row]| && grid[p.row][p.col] != '#'
  }

  /** `isopen`: the cell is not a wall. */
  function IsOpen(grid: seq<string>, p: Position): (r: Result<bool>)
    ensures r.Ok? <==> Lookup(grid, p).Ok?
    ensures r == Ok(true) <==> Open(grid, p)
  {
    match Lookup(grid, p)
    case Ok(c) => Ok(c != '#')
    case Err(e) => Err(e)
  }

  /** `isend`: the cell is the end mark. */
  function IsEnd(grid: seq<string>, p: Position): (r: Result<bool>)
    ensures r.Ok? <==> Lookup(grid, p).Ok?
    ensures r == Ok(true) <==> Lookup(grid, p) == Ok('E')
  {
    match Lookup(grid, p)
    case Ok(c) => Ok(c == 'E')
    case Err(e) => Err(e)
  }

  // ---------------------------------------------------------------- walks

  /** The price of one move from u to v: 1 to step forward, 1000 to turn a
      quarter on the spot, only from a compass facing and only onto an open
      cell. */
  function StepCost(grid: seq<string>, u: State, v: State): (r: Option<int>)
    ensures r.Some? ==> r.value == 1 || r.value == 1000
  {
    if !Known(u.dir) || !Open(grid, v.pos) then None
    else if v == State(Move(u.pos, u.dir), u.dir) then Some(1)
    else if v.pos == u.pos && (v.dir == Dir(-u.dir.col, u.dir.row) || v.dir == Dir(u.dir.col, -u.dir.row))
    then Some(1000)
    else None
  }

  /** The moves `solve` makes from u with `possible` are exactly the priced
      moves: straight for 1, left or right for 1000. */
  lemma PossibleCosts(grid: seq<string>, u: State, v: State)
    ensures StepCost(grid, u, v).Some? ==> Possible(u).Some? && Open(grid, v.pos)
    ensures Possible(u).Some? && Open(grid, v.pos) ==>
      (v == Possible(u).value.0 <==> StepCost(grid, u, v) == Some(1))
    ensures Possible(u).Some? && Open(grid, v.pos) ==>
      (v == Possible(u).value.1 || v == Possible(u).value.2 <==> StepCost(grid, u, v) == Some(1000))
  {
    if Possible(u).Some? {
      var (straight, left, right) := Possible(u).value;
      assert straight.pos != u.pos && left.pos == u.pos && right.pos == u.pos;
    }
  }

  /** v can be reached from start by priced moves costing c in all: it is
      the start at cost 0, or one move w away from a state reached for
      c − w. */
  ghost predicate Reaches(grid: seq<string>, start: State, v: State, c: int)
    decreases if c < 0 then 0 else c
  {
    (v == start && c == 0) ||
    (c > 0 && exists u: State, w: int :: 0 < w <= c && StepCost(grid, u, v) == Some(w) && Reaches(grid, start, u, c - w))
  }

  lemma ReachesStart(grid: seq<string>, start: State)
    ensures Reaches(grid, start, start, 0)
  {
  }

  /** Nothing is reached at a negative cost. */
  lemma ReachesNonNegative(grid: seq<string>, start: State, v: State, c: int)
    requires Reaches(grid, start, v, c)
    ensures c >= 0
  {
  }

  /** A state reached for c followed by one priced move is reached for that
      move more. */
  lemma ReachesStep(grid: seq<string>, start: State, u: State, c: int, v: State, w: int)
    requires Reaches(grid, start, u, c) && StepCost(grid, u, v) == Some(w)
    ensures Reaches(grid, start, v, c + w)
  {
    ReachesNonNegative(grid, start, u, c);
    assert 0 < w <= c + w && StepCost(grid, u, v) == Some(w) && Reaches(grid, start, u, c + w - w);
  }

  /** Every state reached, other than the start, has a known facing: the
      last move either kept a known facing or turned to one. */
  lemma ReachesKnown(grid: seq<string>, start: State, v: State, c: int)
    requires Reaches(grid, start, v, c)
    ensures v == start || Known(v.dir)
  {
    if !(v == start && c == 0) {
      var u: State, w: int :| 0 < w <= c && StepCost(grid, u, v) == Some(w) && Reaches(grid, start, u, c - w);
    }
  }

  // ---------------------------------------------------------------- provenance

  /** `provenance`: the cheapest cost seen for a state and the parents it
      was reached from at that cost. */
  datatype Provenance = Provenance(cost: int, parents: seq<State>)

  /** `maybeAdd`: the parents kept are those arriving at the lower of the
      two costs. */
  function MaybeAdd(p: Provenance, parent: State, cost: int): (r: Provenance)
    ensures r.cost == if cost < p.cost then cost else p.cost
    ensures multiset(r.parents) ==
      (if p.cost == r.cost then multiset(p.parents) else multiset{}) +
      (if cost == r.cost then multiset{parent} else multiset{})
  {
    if p.cost > cost then Provenance(cost, [parent])
    else if p.cost == cost then Provenance(p.cost, p.parents + [parent])
    else p
  }

  /** A parent recorded for v at cost c: the zero state for the start at 0,
      or a state one move back, reached for c less that move. */
  ghost predicate ParentOk(grid: seq<string>, start: State, reached: set<(State, int)>,
                           v: State, p: State, c: int)
  {
    (p == Zero && v == start && c == 0) ||
    (StepCost(grid, p, v).Some? && (p, c - StepCost(grid, p, v).value) in reached)
  }

  /** `maybeAdd` keeps every recorded parent a good one. */
  lemma MaybeAddKeeps(grid: seq<string>, start: State, reached: set<(State, int)>, v: State,
                      p: Provenance, parent: State, cost: int)
    requires forall q :: q in p.parents ==> ParentOk(grid, start, reached, v, q, p.cost)
    requires ParentOk(grid, start, reached, v, parent, cost)
    ensures var r := MaybeAdd(p, parent, cost);
      forall q :: q in r.parents ==> ParentOk(grid, start, reached, v, q, r.cost)
  {
    var r := MaybeAdd(p, parent, cost);
    forall q | q in r.parents ensures ParentOk(grid, start, reached, v, q, r.cost) {
      assert q in multiset(r.parents);
      if q != parent || cost != r.cost {
        assert q in multiset(p.parents);
      }
    }
  }

  // ---------------------------------------------------------------- the solver

  /** Go's read of a map of slices: a missing cost is the empty slice. */
  function At(pq: map<int, seq<State>>, c: int): seq<State>
  {
    if c in pq then pq[c] else []
  }

  /** Every pair in `reached` is a state and the cost of a walk to it. */
  ghost predicate AllReach(grid: seq<string>, start: State, reached: set<(State, int)>)
  {
    forall x {:trigger Reached(grid, start, x)} :: x in reached ==> Reached(grid, start, x)
  }

  ghost predicate Reached(grid: seq<string>, start: State, x: (State, int))
  {
    Reaches(grid, start, x.0, x.1)
  }

  /** Every state in a bucket was reached at the bucket's cost and has a
      provenance. */
  ghost predicate BucketOk(bucket: seq<State>, c: int, prov: map<State, Provenance>,
                           reached: set<(State, int)>)
  {
    forall v :: v in bucket ==> Queued(v, c, prov, reached)
  }

  ghost predicate Queued(v: State, c: int, prov: map<State, Provenance>, reached: set<(State, int)>)
  {
    (v, c) in reached && v in prov
  }

  /** Every bucket is good, and a non-empty one lies between `cheapest`
      and `highest`. */
  ghost predicate QueueOk(pq: map<int, seq<State>>, prov: map<State, Provenance>,
                          reached: set<(State, int)>, cheapest: int, highest: int)
  {
    forall c :: c in pq ==> BucketAt(pq, c, prov, reached, cheapest, highest)
  }

  ghost predicate BucketAt(pq: map<int, seq<State>>, c: int, prov: map<State, Provenance>,
                           reached: set<(State, int)>, cheapest: int, highest: int)
    requires c in pq
  {
    BucketOk(pq[c], c, prov, reached) && (pq[c] != [] ==> cheapest <= c <= highest)
  }

  /** `visited` and `prov` hold the same states, at the same reached cost. */
  ghost predicate VisitedOk(visited: map<State, int>, prov: map<State, Provenance>,
                            reached: set<(State, int)>)
  {
    prov.Keys == visited.Keys && forall v :: v in visited ==> VisitedAt(visited, prov, reached, v)
  }

  ghost predicate VisitedAt(visited: map<State, int>, prov: map<State, Provenance>,
                            reached: set<(State, int)>, v: State)
    requires v in visited && v in prov
  {
    prov[v].cost == visited[v] && (v, visited[v]) in reached
  }

  lemma QueueGrow(pq: map<int, seq<State>>, prov: map<State, Provenance>, prov': map<State, Provenance>,
                  reached: set<(State, int)>, reached': set<(State, int)>, cheapest: int, highest: int)
    requires QueueOk(pq, prov, reached, cheapest, highest)
    requires prov.Keys <= prov'.Keys && reached <= reached'
    ensures QueueOk(pq, prov', reached', cheapest, highest)
  {
    forall c | c in pq ensures BucketAt(pq, c, prov', reached', cheapest, highest) {
      assert BucketAt(pq, c, prov, reached, cheapest, highest);
      forall v | v in pq[c] ensures Queued(v, c, prov', reached') {
        assert Queued(v, c, prov, reached);
      }
    }
  }

  /** Adding a pair reached by a walk keeps `reached` good. */
  lemma AllReachAdd(grid: seq<string>, start: State, reached: set<(State, int)>, v: State, cost: int)
    requires AllReach(grid, start, reached) && Reaches(grid, start, v, cost)
    ensures AllReach(grid, start, reached + {(v, cost)})
  {
    forall x | x in reached + {(v, cost)} ensures Reached(grid, start, x) {
      if x != (v, cost) {
        assert x in reached;
      }
    }
  }

  /** A parent that was good stays good as `reached` grows. */
  lemma ParentOkGrow(grid: seq<string>, start: State, reached: set<(State, int)>,
                     reached': set<(State, int)>, v: State, p: State, c: int)
    requires ParentOk(grid, start, reached, v, p, c) && reached <= reached'
    ensures ParentOk(grid, start, reached', v, p, c)
  {
    if !(p == Zero && v == start && c == 0) {
      assert (p, c - StepCost(grid, p, v).value) in reached;
    }
  }

  /** `add`'s update of `visited` and `prov` keeps them in step: the
      recorded cost is the lower of the old one and the cost offered. */
  lemma VisitedPut(visited: map<State, int>, prov: map<State, Provenance>, reached: set<(State, int)>,
                   v: State, prev: State, cost: int, p: Provenance)
    requires VisitedOk(visited, prov, reached)
    requires p == if v in prov then prov[v] else Provenance(cost, [])
    ensures var prov' := prov[v := MaybeAdd(p, prev, cost)];
      var reached' := reached + {(v, cost)};
      if v !in visited || cost < visited[v] then VisitedOk(visited[v := cost], prov', reached')
      else VisitedOk(visited, prov', reached')
  {
    var prov' := prov[v := MaybeAdd(p, prev, cost)];
    var reached' := reached + {(v, cost)};
    assert prov'.Keys == prov.Keys + {v};
    if v !in visited || cost < visited[v] {
      var visited' := visited[v := cost];
      forall u | u in visited' ensures VisitedAt(visited', prov', reached', u) {
        if u != v {
          assert VisitedAt(visited, prov, reached, u);
        }
      }
    } else {
      forall u | u in visited ensures VisitedAt(visited, prov', reached', u) {
        assert VisitedAt(visited, prov, reached, u);
      }
    }
  }

  /** Appending a reached state to the bucket of its cost keeps the queue
      good, with `highest` raised to that cost. */
  lemma QueuePush(pq: map<int, seq<State>>, prov: map<State, Provenance>, reached: set<(State, int)>,
                  cheapest: int, highest: int, v: State, cost: int)
    requires QueueOk(pq, prov, reached, cheapest, highest)
    requires v in prov && (v, cost) in reached && cheapest <= cost
    ensures QueueOk(pq[cost := At(pq, cost) + [v]], prov, reached, cheapest,
                    if cost > highest then cost else highest)
  {
    var pq' := pq[cost := At(pq, cost) + [v]];
    var highest' := if cost > highest then cost else highest;
    forall c | c in pq' ensures BucketAt(pq', c, prov, reached, cheapest, highest') {
      if c == cost {
        forall u | u in pq'[c] ensures Queued(u, c, prov, reached) {
          if u != v {
            assert cost in pq && BucketAt(pq, cost, prov, reached, cheapest, highest);
          }
        }
      } else {
        assert BucketAt(pq, c, prov, reached, cheapest, highest);
      }
    }
  }

  /** Dropping the first state of a bucket keeps the queue good, and that
      state was reached at the bucket's cost. */
  lemma QueuePop(pq: map<int, seq<State>>, prov: map<State, Provenance>, reached: set<(State, int)>,
                 cheapest: int, highest: int, cost: int)
    requires QueueOk(pq, prov, reached, cheapest, highest) && At(pq, cost) != []
    ensures (pq[cost][0], cost) in reached && pq[cost][0] in prov && cheapest <= cost
    ensures QueueOk(pq[cost := pq[cost][1..]], prov, reached, cheapest, highest)
  {
    var pq' := pq[cost := pq[cost][1..]];
    assert BucketAt(pq, cost, prov, reached, cheapest, highest);
    assert pq[cost][0] in pq[cost] && Queued(pq[cost][0], cost, prov, reached);
    forall c | c in pq' ensures BucketAt(pq', c, prov, reached, cheapest, highest) {
      if c == cost {
        forall u | u in pq'[c] ensures Queued(u, c, prov, reached) {
          assert u in pq[cost];
        }
      } else {
        assert BucketAt(pq, c, prov, reached, cheapest, highest);
      }
    }
  }

  /** Moving `cheapest` past an empty bucket keeps the queue good. */
  lemma QueueRaise(pq: map<int, seq<State>>, prov: map<State, Provenance>, reached: set<(State, int)>,
                   cheapest: int, highest: int)
    requires QueueOk(pq, prov, reached, cheapest, highest) && At(pq, cheapest) == []
    ensures QueueOk(pq, prov, reached, cheapest + 1, highest)
  {
    forall c | c in pq ensures BucketAt(pq, c, prov, reached, cheapest + 1, highest) {
      assert BucketAt(pq, c, prov, reached, cheapest, highest);
    }
  }

  /** A queue whose `cheapest` is above `highest` is empty. */
  lemma QueueEmpty(pq: map<int, seq<State>>, prov: map<State, Provenance>, reached: set<(State, int)>,
                   cheapest: int, highest: int)
    requires QueueOk(pq, prov, reached, cheapest, highest) && cheapest > highest
    ensures forall c :: c in pq ==> pq[c] == []
  {
    forall c | c in pq ensures pq[c] == [] {
      assert BucketAt(pq, c, prov, reached, cheapest, highest);
    }
  }

  /** Every recorded parent is a good one, and is the zero state or has a
      provenance of its own. */
  ghost predicate ParentsOk(grid: seq<string>, start: State, prov: map<State, Provenance>,
                            reached: set<(State, int)>)
  {
    forall v, q :: v in prov && q in prov[v].parents ==> GoodParent(grid, start, prov, reached, v, q)
  }

  ghost predicate GoodParent(grid: seq<string>, start: State, prov: map<State, Provenance>,
                             reached: set<(State, int)>, v: State, q: State)
    requires v in prov
  {
    ParentOk(grid, start, reached, v, q, prov[v].cost) && (q == Zero || q in prov)
  }

  /** `add`'s update of `prov` keeps the parents good. */
  lemma ParentsPut(grid: seq<string>, start: State, prov: map<State, Provenance>,
                   reached: set<(State, int)>, reached': set<(State, int)>,
                   v: State, prev: State, cost: int, p: Provenance)
    requires ParentsOk(grid, start, prov, reached) && reached <= reached'
    requires ParentOk(grid, start, reached', v, prev, cost) && (prev == Zero || prev in prov)
    requires p == if v in prov then prov[v] else Provenance(cost, [])
    ensures ParentsOk(grid, start, prov[v := MaybeAdd(p, prev, cost)], reached')
  {
    var prov' := prov[v := MaybeAdd(p, prev, cost)];
    forall q | q in p.parents ensures ParentOk(grid, start, reached', v, q, p.cost) {
      assert v in prov && q in prov[v].parents;
      ParentOkGrow(grid, start, reached, reached', v, q, p.cost);
    }
    MaybeAddKeeps(grid, start, reached', v, p, prev, cost);
    forall u, q | u in prov' && q in prov'[u].parents
      ensures GoodParent(grid, start, prov', reached', u, q)
    {
      if u != v {
        assert q in prov[u].parents;
        ParentOkGrow(grid, start, reached, reached', u, q, prov[u].cost);
      } else {
        assert q == Zero || q in prov by {
          if q in p.parents {
          } else {
            assert q in multiset(MaybeAdd(p, prev, cost).parents);
          }
        }
      }
    }
  }

  /** `add`'s update keeps the solver's invariant. */
  lemma AddKeeps(grid: seq<string>, start: State, pq: map<int, seq<State>>, cheapest: int, highest: int,
                 visited: map<State, int>, prov: map<State, Provenance>, reached: set<(State, int)>,
                 v: State, prev: State, cost: int, p: Provenance,
                 pq': map<int, seq<State>>, highest': int, visited': map<State, int>)
    requires QueueOk(pq, prov, reached, cheapest, highest)
    requires VisitedOk(visited, prov, reached) && ParentsOk(grid, start, prov, reached)
    requires ParentOk(grid, start, reached, v, prev, cost)
    requires (prev == Zero || prev in prov) && cheapest <= cost
    requires p == if v in prov then prov[v] else Provenance(cost, [])
    requires if v !in visited || cost < visited[v] then
        visited' == visited[v := cost] && pq' == pq[cost := At(pq, cost) + [v]] &&
        highest' == (if cost > highest then cost else highest)
      else visited' == visited && pq' == pq && highest' == highest
    ensures var prov' := prov[v := MaybeAdd(p, prev, cost)];
      var reached' := reached + {(v, cost)};
      QueueOk(pq', prov', reached', cheapest, highest') &&
      VisitedOk(visited', prov', reached') && ParentsOk(grid, start, prov', reached')
  {
    var prov' := prov[v := MaybeAdd(p, prev, cost)];
    var reached' := reached + {(v, cost)};
    VisitedPut(visited, prov, reached, v, prev, cost, p);
    ParentOkGrow(grid, start, reached, reached', v, prev, cost);
    ParentsPut(grid, start, prov, reached, reached', v, prev, cost, p);
    QueueGrow(pq, prov, prov', reached, reached', cheapest, highest);
    if v !in visited || cost < visited[v] {
      QueuePush(pq, prov', reached', cheapest, highest, v, cost);
    }
  }

  /** `solver`: the grid, the buckets `pq` of states by cost, the cost being
      popped (`cheapest`), the largest cost queued (`highest`), the end
      state once found, and the best cost and parents of each state. */
  class Solver {
    const grid: seq<string>
    /** The state `solve` started from. */
    ghost const start: State
    var pq: map<int, seq<State>>
    var cheapest: int
    var highest: int
    var end: State
    var visited: map<State, int>
    var prov: map<State, Provenance>
    /** The (state, cost) pairs `add` has been given. */
    ghost var reached: set<(State, int)>

    ghost predicate Valid()
      reads this
    {
      QueueOk(pq, prov, reached, cheapest, highest) &&
      VisitedOk(visited, prov, reached) && ParentsOk(grid, start, prov, reached)
    }

    /** The solver literal of `solve`, with empty maps and zero fields. */
    constructor (grid: seq<string>, ghost start: State)
      ensures this.grid == grid && this.start == start && Valid()
      ensures pq == map[] && cheapest == 0 && highest == 0 && end == Zero
      ensures visited == map[] && prov == map[] && reached == {}
    {
      this.grid := grid;
      this.start := start;
      pq, cheapest, highest, end := map[], 0, 0, Zero;
      visited, prov := map[], map[];
      reached := {};
    }

    /** `add`: records prev as a parent of v at this cost, and queues v at
        this cost when it is new or cheaper than before; a cost below
        `cheapest` is fatal and changes nothing. */
    method Add(v: State, prev: State, cost: int) returns (ok: bool)
      requires Valid()
      requires ParentOk(grid, start, reached, v, prev, cost)
      requires prev == Zero || prev in prov
      modifies this
      ensures Valid() && ok == (cost >= old(cheapest))
      ensures !ok ==> pq == old(pq) && visited == old(visited) && prov == old(prov)
      ensures !ok ==> highest == old(highest) && reached == old(reached)
      ensures ok ==> reached == old(reached) + {(v, cost)}
      ensures ok ==> prov == old(prov)[v := MaybeAdd(if v in old(prov) then old(prov)[v] else Provenance(cost, []), prev, cost)]
      ensures ok && (v !in old(visited) || cost < old(visited)[v]) ==>
        visited == old(visited)[v := cost] && pq == old(pq)[cost := At(old(pq), cost) + [v]] &&
        highest == (if cost > old(highest) then cost else old(highest))
      ensures ok && !(v !in old(visited) || cost < old(visited)[v]) ==>
        visited == old(visited) && pq == old(pq) && highest == old(highest)
      ensures cheapest == old(cheapest) && end == old(end)
    {
      if cost < cheapest {
        return false;
      }
      var p := if v in prov then prov[v] else Provenance(cost, []);
      var prov' := prov[v := MaybeAdd(p, prev, cost)];
      var visited', pq', highest' := visited, pq, highest;
      if v !in visited || cost < visited[v] {
        visited' := visited[v := cost];
        pq' := pq[cost := At(pq, cost) + [v]];
        if cost > highest {
          highest' := cost;
        }
      }
      AddKeeps(grid, start, pq, cheapest, highest, visited, prov, reached, v, prev, cost, p, pq', highest', visited');
      pq, highest, visited, prov, reached := pq', highest', visited', prov', reached + {(v, cost)};
      ok := true;
    }

    /** `s.end = v` of `solve`. */
    method SetEnd(v: State)
      requires Valid()
      modifies this
      ensures Valid() && end == v
      ensures pq == old(pq) && cheapest == old(cheapest) && highest == old(highest)
      ensures visited == old(visited) && prov == old(prov) && reached == old(reached)
    {
      end := v;
    }

    /** `pop`: takes the first state of the bucket; an empty bucket is Go's
        index panic. */
    method Pop(cost: int) returns (r: Result<State>)
      requires Valid()
      modifies this
      ensures Valid()
      ensures r.Ok? <==> At(old(pq), cost) != []
      ensures r.Ok? ==> r.value == old(pq)[cost][0] && pq == old(pq)[cost := old(pq)[cost][1..]]
      ensures r.Ok? ==> (r.value, cost) in reached
      ensures r.Ok? ==> r.value in prov && cheapest <= cost
      ensures r.Err? ==> pq == old(pq)
      ensures cheapest == old(cheapest) && highest == old(highest) && end == old(end)
      ensures visited == old(visited) && prov == old(prov) && reached == old(reached)
    {
      if At(pq, cost) == [] {
        return Err("index out of range");
      }
      QueuePop(pq, prov, reached, cheapest, highest, cost);
      var v := pq[cost][0];
      pq := pq[cost := pq[cost][1..]];
      r := Ok(v);
    }
  }

  const OutOfQueue := "Ran out of priority queue"

  /** The facts `solve` keeps about the states popped so far: they leave in
      order of cost, each reachable at the cost it was popped at, none the
      end cell. */
  ghost predicate Popped(popped: seq<(State, int)>, reached: set<(State, int)>, cheapest: int)
  {
    (forall i, j :: 0 <= i < j < |popped| ==> popped[i].1 <= popped[j].1) &&
    (forall i :: 0 <= i < |popped| ==> popped[i].1 <= cheapest) &&
    (forall i :: 0 <= i < |popped| ==> popped[i] in reached)
  }

  /** Popping a reached state at `cheapest` keeps the popped list good. */
  lemma PoppedPush(popped: seq<(State, int)>, reached: set<(State, int)>, cheapest: int, v: State)
    requires Popped(popped, reached, cheapest) && (v, cheapest) in reached
    ensures Popped(popped + [(v, cheapest)], reached, cheapest)
  {
    var p' := popped + [(v, cheapest)];
    forall i, j | 0 <= i < j < |p'| ensures p'[i].1 <= p'[j].1 {
      assert p'[i] == popped[i];
    }
  }

  /** None of the popped states is on the end cell. */
  ghost predicate NotEnds(grid: seq<string>, popped: seq<(State, int)>)
  {
    forall i :: 0 <= i < |popped| ==> IsEnd(grid, popped[i].0.pos) == Ok(false)
  }

  lemma NotEndsPush(grid: seq<string>, popped: seq<(State, int)>, v: State, c: int)
    requires NotEnds(grid, popped) && IsEnd(grid, v.pos) == Ok(false)
    ensures NotEnds(grid, popped + [(v, c)])
  {
    var p' := popped + [(v, c)];
    forall i | 0 <= i < |p'| ensures IsEnd(grid, p'[i].0.pos) == Ok(false) {
      if i < |popped| {
        assert p'[i] == popped[i];
      }
    }
  }

  /** With `reached` good, every popped state was reached at its cost. */
  lemma PoppedReaches(grid: seq<string>, start: State, popped: seq<(State, int)>,
                      reached: set<(State, int)>, cheapest: int)
    requires AllReach(grid, start, reached) && Popped(popped, reached, cheapest)
    ensures forall i :: 0 <= i < |popped| ==> Reaches(grid, start, popped[i].0, popped[i].1)
  {
    forall i | 0 <= i < |popped| ensures Reaches(grid, start, popped[i].0, popped[i].1) {
      assert Reached(grid, start, popped[i]);
    }
  }

  /** The inner loop of `solve`: moves `cheapest` up to the first
      non-empty bucket; false when it passes `highest`, which Go reports as
      "Ran out of priority queue". */
  method NextCost(s: Solver) returns (found: bool)
    requires s.Valid() && 0 <= s.cheapest <= s.highest + 1
    modifies s
    ensures s.Valid() && old(s.cheapest) <= s.cheapest <= s.highest + 1
    ensures s.pq == old(s.pq) && s.highest == old(s.highest) && s.end == old(s.end)
    ensures s.visited == old(s.visited) && s.prov == old(s.prov) && s.reached == old(s.reached)
    ensures forall c :: old(s.cheapest) <= c < s.cheapest ==> At(s.pq, c) == []
    ensures found <==> At(s.pq, s.cheapest) != []
    ensures !found ==> forall c :: c in s.pq ==> s.pq[c] == []
  {
    while At(s.pq, s.cheapest) == []
      invariant s.Valid() && old(s.cheapest) <= s.cheapest <= s.highest + 1
      invariant s.pq == old(s.pq) && s.highest == old(s.highest) && s.end == old(s.end)
      invariant s.visited == old(s.visited) && s.prov == old(s.prov) && s.reached == old(s.reached)
      invariant forall c :: old(s.cheapest) <= c < s.cheapest ==> At(s.pq, c) == []
      decreases s.highest + 1 - s.cheapest
    {
      if s.cheapest > s.highest {
        QueueEmpty(s.pq, s.prov, s.reached, s.cheapest, s.highest);
        return false;
      }
      QueueRaise(s.pq, s.prov, s.reached, s.cheapest, s.highest);
      s.cheapest := s.cheapest + 1;
    }
    found := true;
  }

  /** The three `isopen`/`add` steps of `solve` for the popped state v;
      false is a fatal error on the way. */
  method Expand(s: Solver, v: State) returns (ok: bool)
    requires s.Valid() && AllReach(s.grid, s.start, s.reached)
    requires (v, s.cheapest) in s.reached && v in s.prov && Known(v.dir)
    modifies s
    ensures s.Valid() && AllReach(s.grid, s.start, s.reached)
    ensures s.cheapest == old(s.cheapest) && s.end == old(s.end) && s.highest >= old(s.highest)
    ensures old(s.reached) <= s.reached
  {
    var (straight, left, right) := Possible(v).value;
    ok := Offer(s, v, straight, 1);
    if ok {
      ok := Offer(s, v, left, 1000);
    }
    if ok {
      ok := Offer(s, v, right, 1000);
    }
  }

  /** `solve`: pops states in order of cost, stops at the first on the end
      cell, and queues the open moves from each other state. The model stops
      with an error after `fuel` states; the ghost `popped` lists the
      states popped with their costs. */
  method Solve(grid: seq<string>, start: State, fuel: nat)
    returns (s: Solver, r: Result<State>, ghost popped: seq<(State, int)>)
    ensures s.grid == grid && s.start == start && s.Valid() && AllReach(grid, start, s.reached)
    ensures Popped(popped, s.reached, s.cheapest)
    ensures r.Ok? ==> r.value == s.end && IsEnd(grid, s.end.pos) == Ok(true)
    ensures r.Ok? ==> Reaches(grid, start, s.end, s.cheapest)
    ensures r.Ok? ==> |popped| >= 1 && popped[|popped| - 1] == (s.end, s.cheapest)
    ensures r.Ok? ==> NotEnds(grid, popped[..|popped| - 1])
    ensures r == Err(OutOfQueue) ==> forall c :: c in s.pq ==> s.pq[c] == []
  {
    s := new Solver(grid, start);
    ReachesStart(grid, start);
    AllReachAdd(grid, start, s.reached, start, 0);
    var ok := s.Add(start, Zero, 0);
    popped := [];
    r := if ok then Err("fuel") else Err("cost below cheapest");
    var step := 0;
    while ok && step < fuel
      invariant s.grid == grid && s.start == start && s.Valid() && AllReach(grid, start, s.reached)
      invariant 0 <= s.cheapest <= s.highest + 1
      invariant Popped(popped, s.reached, s.cheapest)
      invariant NotEnds(grid, popped)
      invariant r.Err? && r != Err(OutOfQueue)
      decreases fuel - step
    {
      step := step + 1;
      var found := NextCost(s);
      if !found {
        r := Err(OutOfQueue);
        break;
      }
      var cost := s.cheapest;
      var popped1 := s.Pop(cost);
      var v := popped1.value;
      PoppedPush(popped, s.reached, cost, v);
      ghost var before := popped;
      popped := popped + [(v, cost)];
      var atEnd := IsEnd(grid, v.pos);
      if atEnd.Err? {
        r := Err(atEnd.msg);
        break;
      }
      if atEnd.value {
        assert Reached(grid, start, (v, cost));
        assert popped[..|popped| - 1] == before;
        s.SetEnd(v);
        r := Ok(v);
        break;
      }
      NotEndsPush(grid, before, v, cost);
      if !Known(v.dir) {
        r := Err("unknown direction");
        break;
      }
      ok := Expand(s, v);
      if !ok {
        r := Err("cannot offer");
      }
    }
  }

  /** An open cell one move from a reached state is reached for that move
      more, with the state as a good parent. */
  lemma OfferStep(grid: seq<string>, start: State, reached: set<(State, int)>,
                  v: State, c: int, next: State, w: int)
    requires AllReach(grid, start, reached) && (v, c) in reached && Open(grid, next.pos)
    requires Possible(v).Some? && (next == Possible(v).value.0 ==> w == 1)
    requires (next == Possible(v).value.1 || next == Possible(v).value.2) ==> w == 1000
    requires next in {Possible(v).value.0, Possible(v).value.1, Possible(v).value.2}
    ensures AllReach(grid, start, reached + {(next, c + w)})
    ensures ParentOk(grid, start, reached, next, v, c + w)
  {
    PossibleCosts(grid, v, next);
    assert Reached(grid, start, (v, c));
    ReachesStep(grid, start, v, c, next, w);
    AllReachAdd(grid, start, reached, next, c + w);
  }

  /** One `if s.isopen(next.pos) { s.add(next, v, s.cheapest + w) }` of
      `solve`, for a move from the popped state v costing w; false is a
      fatal error on the way. */
  method Offer(s: Solver, v: State, next: State, w: int) returns (ok: bool)
    requires s.Valid() && AllReach(s.grid, s.start, s.reached)
    requires w >= 1 && (v, s.cheapest) in s.reached && v in s.prov
    requires Possible(v).Some? && (next == Possible(v).value.0 ==> w == 1)
    requires (next == Possible(v).value.1 || next == Possible(v).value.2) ==> w == 1000
    requires next in {Possible(v).value.0, Possible(v).value.1, Possible(v).value.2}
    modifies s
    ensures s.Valid() && AllReach(s.grid, s.start, s.reached)
    ensures s.cheapest == old(s.cheapest) && s.end == old(s.end)
    ensures s.highest >= old(s.highest) && v in s.prov && old(s.reached) <= s.reached
    ensures ok ==> IsOpen(s.grid, next.pos).Ok?
    ensures ok && IsOpen(s.grid, next.pos) == Ok(false) ==> s.pq == old(s.pq) && s.prov == old(s.prov)
  {
    var open := IsOpen(s.grid, next.pos);
    if open.Err? {
      return false;
    }
    if !open.value {
      return true;
    }
    OfferStep(s.grid, s.start, s.reached, v, s.cheapest, next, w);
    ok := s.Add(next, v, s.cheapest + w);
  }

  /** The first state of `part1` and `part2`: bottom left facing east, or,
      when that cell is not 'S', top right facing south. Reading that cell
      panics on a grid of fewer than two lines. */
  function StartOf(lines: seq<string>): (r: Result<State>)
    ensures r.Ok? <==> |lines| >= 2 && |lines[|lines| - 2]| >= 2
    ensures r.Ok? ==> r.value.dir == East || r.value.dir == South
  {
    if |lines| < 2 || |lines[|lines| - 2]| < 2 then Err("index out of range")
    else if lines[|lines| - 2][1] != 'S' then Ok(State(Position(1, |lines[0]| - 2), South))
    else Ok(State(Position(|lines| - 2, 1), East))
  }

  /** `part1`: the cost at which the end is popped. */
  method Part1(lines: seq<string>, fuel: nat) returns (r: Result<int>)
    ensures r.Ok? ==> StartOf(lines).Ok?
    ensures r.Ok? ==> exists e: State :: IsEnd(lines, e.pos) == Ok(true) && Reaches(lines, StartOf(lines).value, e, r.value)
  {
    var start := StartOf(lines);
    if start.Err? {
      return Err(start.msg);
    }
    var s, res, popped := Solve(lines, start.value, fuel);
    if res.Err? {
      return Err(res.msg);
    }
    r := Ok(s.cheapest);
  }

  // ---------------------------------------------------------------- part 2

  /** A chain of parent links: each state before the last is a non-zero
      state with a provenance that lists the next one as a parent. */
  ghost predicate Chain(prov: map<State, Provenance>, path: seq<State>)
  {
    |path| >= 1 &&
    forall i :: 0 <= i < |path| - 1 ==> path[i] != Zero && path[i] in prov && path[i + 1] in prov[path[i]].parents
  }

  /** v is reached from end by following parent links. */
  ghost predicate Ancestor(prov: map<State, Provenance>, end: State, v: State)
  {
    exists path: seq<State> :: Chain(prov, path) && path[0] == end && path[|path| - 1] == v
  }

  lemma AncestorSelf(prov: map<State, Provenance>, end: State)
    ensures Ancestor(prov, end, end)
  {
    assert Chain(prov, [end]);
  }

  lemma AncestorStep(prov: map<State, Provenance>, end: State, v: State, p: State)
    requires Ancestor(prov, end, v) && v != Zero && v in prov && p in prov[v].parents
    ensures Ancestor(prov, end, p)
  {
    var path :| Chain(prov, path) && path[0] == end && path[|path| - 1] == v;
    var longer := path + [p];
    assert forall i :: 0 <= i < |path| ==> longer[i] == path[i];
    assert Chain(prov, longer);
  }

  /** A set holding end (when it is not the zero state) and the parents of
      each of its states holds every non-zero ancestor of end. */
  lemma {:induction false} ClosedHoldsAncestors(prov: map<State, Provenance>, end: State, done: set<State>,
                                                path: seq<State>)
    requires end == Zero || end in done
    requires forall v :: v in done ==> v in prov && forall p :: p in prov[v].parents ==> p == Zero || p in done
    requires Chain(prov, path) && path[0] == end
    ensures path[|path| - 1] == Zero || path[|path| - 1] in done
    decreases |path|
  {
    if |path| > 1 {
      var shorter := path[..|path| - 1];
      assert Chain(prov, shorter) by {
        forall i | 0 <= i < |shorter| - 1
          ensures shorter[i] != Zero && shorter[i] in prov && shorter[i + 1] in prov[shorter[i]].parents
        {
          assert shorter[i] == path[i] && shorter[i + 1] == path[i + 1];
        }
      }
      ClosedHoldsAncestors(prov, end, done, shorter);
      assert path[|path| - 2] != Zero && path[|path| - 1] in prov[path[|path| - 2]].parents;
    }
  }

  /** The loop of `part2`: walks the parent links back from end, queue
      first, and marks the position of every state it meets other than the
      zero state. A state without a provenance is Go's nil dereference; the
      model stops after `fuel` states with an error. The ghost `done` is the
      set of states marked. */
  method Tiles(prov: map<State, Provenance>, end: State, fuel: nat)
    returns (r: Result<set<Position>>, ghost done: set<State>)
    ensures forall v :: v in done ==> v != Zero && Ancestor(prov, end, v)
    ensures r.Ok? ==> r.value == (set v | v in done :: v.pos)
    ensures r.Ok? ==> forall v :: v != Zero && Ancestor(prov, end, v) ==> v in done
  {
    var q := [end];
    var seen: set<Position> := {};
    done := {};
    AncestorSelf(prov, end);
    var f := fuel;
    while |q| > 0
      invariant seen == set v | v in done :: v.pos
      invariant end == Zero || end in done || end in q
      invariant forall v :: v in done ==> v != Zero && v in prov && Ancestor(prov, end, v)
      invariant forall v :: v in done ==> forall p :: p in prov[v].parents ==> p == Zero || p in done || p in q
      invariant forall i :: 0 <= i < |q| ==> Ancestor(prov, end, q[i])
      decreases f
    {
      if f == 0 {
        return Err("fuel"), done;
      }
      f := f - 1;
      var v := q[0];
      q := q[1..];
      if v != Zero {
        if v !in prov {
          return Err("nil pointer dereference"), done;
        }
        seen := seen + {v.pos};
        done := done + {v};
        forall p | p in prov[v].parents ensures Ancestor(prov, end, p) {
          AncestorStep(prov, end, v, p);
        }
        q := q + prov[v].parents;
      }
    }
    forall v | v != Zero && Ancestor(prov, end, v) ensures v in done {
      var path :| Chain(prov, path) && path[0] == end && path[|path| - 1] == v;
      ClosedHoldsAncestors(prov, end, done, path);
    }
    r := Ok(seen);
  }

  /** `part2`: the number of positions of the states the parent links lead
      back to from the end. The ghost results are the provenance and end
      state `solve` left and the states marked. */
  method Part2(lines: seq<string>, fuel: nat)
    returns (r: Result<int>, ghost prov: map<State, Provenance>, ghost end: State, ghost marked: set<State>)
    ensures r.Ok? ==> StartOf(lines).Ok? && IsEnd(lines, end.pos) == Ok(true)
    ensures r.Ok? ==> exists c :: Reaches(lines, StartOf(lines).value, end, c)
    ensures r.Ok? ==> forall v :: v in marked <==> v != Zero && Ancestor(prov, end, v)
    ensures r.Ok? ==> r.value == |set v | v in marked :: v.pos| && r.value >= 1
  {
    marked := {};
    var start := StartOf(lines);
    if start.Err? {
      return Err(start.msg), map[], Zero, {};
    }
    var s, res, popped := Solve(lines, start.value, fuel);
    prov, end := s.prov, s.end;
    if res.Err? {
      return Err(res.msg), prov, end, {};
    }
    var tiles, done := Tiles(s.prov, s.end, fuel);
    marked := done;
    if tiles.Err? {
      return Err(tiles.msg), prov, end, marked;
    }
    assert s.end.pos in tiles.value by {
      ReachesKnown(lines, start.value, s.end, s.cheapest);
      AncestorSelf(s.prov, s.end);
    }
    r := Ok(|tiles.value|);
  }
}
