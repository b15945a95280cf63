/** 2021 day 19: lining up the beacon reports of scanners.

    Each scanner reports beacons relative to itself, in an unknown
    orientation. A report is turned into each of the 24 orientations of a
    cube, and an orientation is placed where it shares at least 12 beacons
    with a report already placed; scanner 0 is the frame of reference.

    The source iterates over Go maps, whose order is not fixed; here the
    point sets are sets, an element is taken by choice, and the results that
    depend on the order are stated as relations. */
module Y2021Day19 {
  import opened Common

  // ---------------------------------------------------------------- points and turns

  /** Quarter turns clockwise (`Deosil`, 1) or back (`Widdershins`, -1). */
  datatype Direction = Deosil | Widdershins

  function Sign(d: Direction): int
  {
    match d
    case Deosil => 1
    case Widdershins => -1
  }

  /** `v * int(dir)`. */
  function Scale(v: int, d: Direction): int
  {
    match d
    case Deosil => v
    case Widdershins => -v
  }

  function Back(d: Direction): Direction
  {
    match d
    case Deosil => Widdershins
    case Widdershins => Deosil
  }

  /** The axis argument of `rotate`, the strings "x", "y" and "z". */
  datatype Axis = X | Y | Z

  datatype Point = Point(x: int, y: int, z: int)

  /** A number of quarter turns about each axis. */
  datatype Rotation = Rotation(x: int, y: int, z: int)

  const Origin := Point(0, 0, 0)

  function Union(r: Rotation, o: Rotation): Rotation
  {
    Rotation(r.x + o.x, r.y + o.y, r.z + o.z)
  }

  function Plus(p: Point, o: Point): Point
  {
    Point(p.x + o.x, p.y + o.y, p.z + o.z)
  }

  function Minus(p: Point, o: Point): Point
  {
    Point(p.x - o.x, p.y - o.y, p.z - o.z)
  }

  /** `rotate`: one quarter turn about an axis. */
  function Rotate(p: Point, axis: Axis, dir: Direction): Point
  {
    match axis
    case X => Point(p.x, Scale(p.z, dir), Scale(-p.y, dir))
    case Y => Point(Scale(-p.z, dir), p.y, Scale(p.x, dir))
    case Z => Point(Scale(p.y, dir), Scale(-p.x, dir), p.z)
  }

  /** The Manhattan norm, as `part2` measures distances. */
  function Norm(p: Point): nat
  {
    Abs(p.x) + Abs(p.y) + Abs(p.z)
  }

  /** A turn back undoes a turn. */
  lemma RotateBack(p: Point, axis: Axis, dir: Direction)
    ensures Rotate(Rotate(p, axis, dir), axis, Back(dir)) == p
  {
  }

  /** A turn only swaps coordinates and changes signs, so it keeps the
      norm. */
  lemma RotateNorm(p: Point, axis: Axis, dir: Direction)
    ensures Norm(Rotate(p, axis, dir)) == Norm(p)
  {
    ScaleAbs(p.x, dir);
    ScaleAbs(p.y, dir);
    ScaleAbs(p.z, dir);
  }

  lemma ScaleAbs(v: int, d: Direction)
    ensures Abs(Scale(v, d)) == Abs(v) && Abs(Scale(-v, d)) == Abs(v)
  {
  }

  /** A turn is linear, so it commutes with adding points. */
  lemma RotatePlus(p: Point, q: Point, axis: Axis, dir: Direction)
    ensures Rotate(Plus(p, q), axis, dir) == Plus(Rotate(p, axis, dir), Rotate(q, axis, dir))
  {
  }

  /** `p.minus(q).plus(q)` is p, and the other way round. */
  lemma MinusPlus(p: Point, q: Point)
    ensures Plus(Minus(p, q), q) == p && Minus(Plus(p, q), q) == p
  {
  }

  /** n turns about one axis in one direction. */
  function Repeat(p: Point, axis: Axis, dir: Direction, n: nat): Point
  {
    if n == 0 then p else Rotate(Repeat(p, axis, dir, n - 1), axis, dir)
  }

  /** Four turns about an axis bring every point back, and fewer do not
      bring back a point off the axis. */
  lemma FourTurns(p: Point, axis: Axis, dir: Direction)
    ensures Repeat(p, axis, dir, 4) == p
    ensures Repeat(Point(1, 2, 3), axis, dir, 1) != Point(1, 2, 3)
    ensures Repeat(Point(1, 2, 3), axis, dir, 2) != Point(1, 2, 3)
    ensures Repeat(Point(1, 2, 3), axis, dir, 3) != Point(1, 2, 3)
  {
    var p1 := Rotate(p, axis, dir);
    var p2 := Rotate(p1, axis, dir);
    var p3 := Rotate(p2, axis, dir);
    assert Repeat(p, axis, dir, 0) == p;
    assert Repeat(p, axis, dir, 1) == p1;
    assert Repeat(p, axis, dir, 2) == p2;
    assert Repeat(p, axis, dir, 3) == p3;
    assert Rotate(p3, axis, dir) == p by {
      match dir
      case Deosil =>
      case Widdershins =>
    }
  }

  lemma {:induction false} RepeatNorm(p: Point, axis: Axis, dir: Direction, n: nat)
    ensures Norm(Repeat(p, axis, dir, n)) == Norm(p)
  {
    if n > 0 {
      RepeatNorm(p, axis, dir, n - 1);
      RotateNorm(Repeat(p, axis, dir, n - 1), axis, dir);
    }
  }

  /** Turns are linear, so turning commutes with shifting. */
  lemma {:induction false} RepeatPlus(p: Point, q: Point, axis: Axis, dir: Direction, n: nat)
    ensures Repeat(Plus(p, q), axis, dir, n) == Plus(Repeat(p, axis, dir, n), Repeat(q, axis, dir, n))
  {
    if n > 0 {
      RepeatPlus(p, q, axis, dir, n - 1);
      RotatePlus(Repeat(p, axis, dir, n - 1), Repeat(q, axis, dir, n - 1), axis, dir);
    }
  }

  /** The direction `rotateMultiple` turns for a count k. */
  function DirOf(k: int): Direction
  {
    if k < 0 then Widdershins else Deosil
  }

  /** k turns about one axis: forwards for positive k, back for negative. */
  function Turn(p: Point, axis: Axis, k: int): Point
  {
    Repeat(p, axis, DirOf(k), Abs(k))
  }

  /** `rotateMultiple`: the x turns, then the y turns, then the z turns. */
  function Turned(p: Point, axes: Rotation): Point
  {
    Turn(Turn(Turn(p, X, axes.x), Y, axes.y), Z, axes.z)
  }

  lemma TurnedNorm(p: Point, axes: Rotation)
    ensures Norm(Turned(p, axes)) == Norm(p)
  {
    RepeatNorm(p, X, DirOf(axes.x), Abs(axes.x));
    RepeatNorm(Turn(p, X, axes.x), Y, DirOf(axes.y), Abs(axes.y));
    RepeatNorm(Turn(Turn(p, X, axes.x), Y, axes.y), Z, DirOf(axes.z), Abs(axes.z));
  }

  lemma TurnedPlus(p: Point, q: Point, axes: Rotation)
    ensures Turned(Plus(p, q), axes) == Plus(Turned(p, axes), Turned(q, axes))
  {
    RepeatPlus(p, q, X, DirOf(axes.x), Abs(axes.x));
    var p1, q1 := Turn(p, X, axes.x), Turn(q, X, axes.x);
    RepeatPlus(p1, q1, Y, DirOf(axes.y), Abs(axes.y));
    var p2, q2 := Turn(p1, Y, axes.y), Turn(q1, Y, axes.y);
    RepeatPlus(p2, q2, Z, DirOf(axes.z), Abs(axes.z));
  }

  /** Turns about different axes do not commute: a quarter turn about x
      then y differs from one about y then x. */
  lemma TurnsDoNotCommute()
    ensures Rotate(Rotate(Point(0, 1, 0), X, Deosil), Y, Deosil) != Rotate(Rotate(Point(0, 1, 0), Y, Deosil), X, Deosil)
    ensures Turned(Point(0, 1, 0), Rotation(1, 1, 0)) == Point(1, 0, 0)
  {
    assert Repeat(Point(0, 1, 0), X, Deosil, 1) == Point(0, 0, -1);
  }

  /** The loops of `rotateMultiple`, reassigning q. */
  method RotateMultiple(p: Point, axes: Rotation) returns (q: Point)
    ensures q == Turned(p, axes)
  {
    q := p;
    if axes.x != 0 {
      var dir := if axes.x < 0 then Widdershins else Deosil;
      for i := 0 to Sign(dir) * axes.x
        invariant q == Repeat(p, X, dir, i)
      {
        q := Rotate(q, X, dir);
      }
    }
    ghost var qx := q;
    if axes.y != 0 {
      var dir := if axes.y < 0 then Widdershins else Deosil;
      for i := 0 to Sign(dir) * axes.y
        invariant q == Repeat(qx, Y, dir, i)
      {
        q := Rotate(q, Y, dir);
      }
    }
    ghost var qy := q;
    if axes.z != 0 {
      var dir := if axes.z < 0 then Widdershins else Deosil;
      for i := 0 to Sign(dir) * axes.z
        invariant q == Repeat(qy, Z, dir, i)
      {
        q := Rotate(q, Z, dir);
      }
    }
  }
  lemma RotateInjective(p: Point, q: Point, axis: Axis, dir: Direction)
    ensures Rotate(p, axis, dir) == Rotate(q, axis, dir) ==> p == q
  {
    RotateBack(p, axis, dir);
    RotateBack(q, axis, dir);
  }

  lemma {:induction false} RepeatInjective(p: Point, q: Point, axis: Axis, dir: Direction, n: nat)
    ensures Repeat(p, axis, dir, n) == Repeat(q, axis, dir, n) ==> p == q
  {
    if n > 0 {
      RotateInjective(Repeat(p, axis, dir, n - 1), Repeat(q, axis, dir, n - 1), axis, dir);
      RepeatInjective(p, q, axis, dir, n - 1);
    }
  }

  /** Different points stay different under any rotation. */
  lemma TurnedInjective(p: Point, q: Point, axes: Rotation)
    ensures Turned(p, axes) == Turned(q, axes) ==> p == q
  {
    var p1, q1 := Turn(p, X, axes.x), Turn(q, X, axes.x);
    var p2, q2 := Turn(p1, Y, axes.y), Turn(q1, Y, axes.y);
    RepeatInjective(p2, q2, Z, DirOf(axes.z), Abs(axes.z));
    RepeatInjective(p1, q1, Y, DirOf(axes.y), Abs(axes.y));
    RepeatInjective(p, q, X, DirOf(axes.x), Abs(axes.x));
  }

  // ---------------------------------------------------------------- point sets

  /** A scanner's beacons in some orientation and position, with the
      position of the scanner itself and the turns applied so far. */
  datatype Pointset = Pointset(points: set<Point>, origin: Point, rotation: Rotation)

  function TurnedSet(a: set<Point>, axes: Rotation): set<Point>
  {
    set p | p in a :: Turned(p, axes)
  }

  /** `Pointset.rotate`: every point and the origin turned, the turns
      added to the rotation. */
  function Rotated(s: Pointset, axes: Rotation): Pointset
  {
    Pointset(TurnedSet(s.points, axes), Turned(s.origin, axes), Union(s.rotation, axes))
  }

  function ShiftedSet(a: set<Point>, d: Point): set<Point>
  {
    set q | q in a :: Plus(q, d)
  }

  /** `Pointset.offset`: every point and the origin moved by d, the
      rotation kept. */
  function Shifted(s: Pointset, d: Point): Pointset
  {
    Pointset(ShiftedSet(s.points, d), Plus(s.origin, d), s.rotation)
  }

  lemma TurnedSetAdd(a: set<Point>, p: Point, axes: Rotation)
    ensures TurnedSet(a + {p}, axes) == TurnedSet(a, axes) + {Turned(p, axes)}
  {
  }

  lemma ShiftedSetAdd(a: set<Point>, p: Point, d: Point)
    ensures ShiftedSet(a + {p}, d) == ShiftedSet(a, d) + {Plus(p, d)}
  {
  }

  /** Rotating a scanner's report keeps the number of beacons. */
  lemma {:induction false} TurnedSetSize(a: set<Point>, axes: Rotation)
    ensures |TurnedSet(a, axes)| == |a|
    decreases |a|
  {
    if a != {} {
      var p :| p in a;
      var rest := a - {p};
      TurnedSetSize(rest, axes);
      TurnedSetAdd(rest, p, axes);
      assert rest + {p} == a;
      if Turned(p, axes) in TurnedSet(rest, axes) {
        var q :| q in rest && Turned(q, axes) == Turned(p, axes);
        TurnedInjective(p, q, axes);
      }
    }
  }

  /** Moving a report keeps the number of beacons. */
  lemma {:induction false} ShiftedSetSize(a: set<Point>, d: Point)
    ensures |ShiftedSet(a, d)| == |a|
    decreases |a|
  {
    if a != {} {
      var p :| p in a;
      var rest := a - {p};
      ShiftedSetSize(rest, d);
      ShiftedSetAdd(rest, p, d);
      assert rest + {p} == a;
      assert Plus(p, d) !in ShiftedSet(rest, d) by {
        forall q | q in rest
          ensures Plus(q, d) != Plus(p, d)
        {
        }
      }
    }
  }

  /** Moving back by the same offset restores the report. */
  lemma ShiftBack(s: Pointset, d: Point)
    ensures Shifted(Shifted(s, d), Minus(Origin, d)) == s
  {
    var back := Minus(Origin, d);
    forall q | q in s.points
      ensures q in ShiftedSet(ShiftedSet(s.points, d), back)
    {
      assert Plus(Plus(q, d), back) == q;
    }
  }

  /** A rotated report keeps its size, and the distances between its
      beacons. */
  lemma RotatedShape(s: Pointset, axes: Rotation, p: Point, q: Point)
    requires p in s.points && q in s.points
    ensures |Rotated(s, axes).points| == |s.points|
    ensures Norm(Minus(Turned(p, axes), Turned(q, axes))) == Norm(Minus(p, q))
  {
    TurnedSetSize(s.points, axes);
    TurnedPlus(Minus(p, q), q, axes);
    MinusPlus(p, q);
    TurnedNorm(Minus(p, q), axes);
  }

  /** The loop of `Pointset.rotate`. */
  method RotatePointset(s: Pointset, axes: Rotation) returns (r: Pointset)
    ensures r == Rotated(s, axes)
  {
    var res: set<Point> := {};
    var rest := s.points;
    while rest != {}
      invariant rest <= s.points
      invariant res == TurnedSet(s.points - rest, axes)
      decreases |rest|
    {
      var p :| p in rest;
      var q := RotateMultiple(p, axes);
      TurnedSetAdd(s.points - rest, p, axes);
      assert s.points - (rest - {p}) == (s.points - rest) + {p};
      res := res + {q};
      rest := rest - {p};
    }
    assert s.points - rest == s.points;
    var origin := RotateMultiple(s.origin, axes);
    r := Pointset(res, origin, Union(s.rotation, axes));
  }

  /** The loop of `Pointset.offset`. */
  method OffsetPointset(s: Pointset, d: Point) returns (r: Pointset)
    ensures r == Shifted(s, d)
  {
    var res: set<Point> := {};
    var rest := s.points;
    while rest != {}
      invariant rest <= s.points
      invariant res == ShiftedSet(s.points - rest, d)
      decreases |rest|
    {
      var q :| q in rest;
      ShiftedSetAdd(s.points - rest, q, d);
      assert s.points - (rest - {q}) == (s.points - rest) + {q};
      res := res + {Plus(q, d)};
      rest := rest - {q};
    }
    assert s.points - rest == s.points;
    r := Pointset(res, Plus(s.origin, d), s.rotation);
  }
  // ---------------------------------------------------------------- orientations

  /** `allFaces`: which way the x axis ends up facing. */
  const Faces: seq<Rotation> := [Rotation(0, 0, 0), Rotation(0, 1, 0), Rotation(0, 2, 0), Rotation(0, 3, 0), Rotation(0, 0, 1), Rotation(0, 0, 3)]

  /** `xTurns`: the turns about the x axis. */
  const XTurns: seq<Rotation> := [Rotation(0, 0, 0), Rotation(1, 0, 0), Rotation(2, 0, 0), Rotation(3, 0, 0)]

  /** The inner loop of `allOrientations`: face f with each x turn. */
  method FaceTurns(s: Pointset, f: nat) returns (four: seq<Pointset>)
    requires f < |Faces|
    ensures |four| == 4
    ensures forall x :: 0 <= x < 4 ==> four[x] == Rotated(s, Union(Faces[f], XTurns[x]))
  {
    four := [];
    for x := 0 to |XTurns|
      invariant |four| == x
      invariant forall x' :: 0 <= x' < x ==> four[x'] == Rotated(s, Union(Faces[f], XTurns[x']))
    {
      var o := RotatePointset(s, Union(Faces[f], XTurns[x]));
      four := four + [o];
    }
  }

  /** res holds the orientations of s for the first n faces, each face
      with its four x turns in order. */
  ghost predicate FacesDone(s: Pointset, res: seq<Pointset>, n: nat)
  {
    |res| == 4 * n && n <= 6 &&
    forall f, x :: 0 <= f < n && 0 <= x < 4 ==> res[4 * f + x] == Rotated(s, Union(Faces[f], XTurns[x]))
  }

  lemma AppendFace(s: Pointset, res: seq<Pointset>, four: seq<Pointset>, n: nat)
    requires FacesDone(s, res, n) && n < 6 && |four| == 4
    requires forall x :: 0 <= x < 4 ==> four[x] == Rotated(s, Union(Faces[n], XTurns[x]))
    ensures FacesDone(s, res + four, n + 1)
  {
    forall f, x | 0 <= f < n + 1 && 0 <= x < 4
      ensures (res + four)[4 * f + x] == Rotated(s, Union(Faces[f], XTurns[x]))
    {
      if f < n {
        assert (res + four)[4 * f + x] == res[4 * f + x];
      } else {
        assert (res + four)[4 * f + x] == four[x];
      }
    }
  }

  /** `allOrientations`: the faces in order, each with the four x turns. */
  method AllOrientations(s: Pointset) returns (res: seq<Pointset>)
    ensures FacesDone(s, res, 6)
  {
    res := [];
    for n := 0 to |Faces|
      invariant FacesDone(s, res, n)
    {
      var four := FaceTurns(s, n);
      AppendFace(s, res, four, n);
      res := res + four;
    }
  }

  // ---------------------------------------------------------------- overlap

  /** Beacons two placed reports must share. */
  const MinMatches := 12

  /** The beacons of t that s also has. */
  function Shared(t: Pointset, s: Pointset): nat
  {
    |t.points * s.points|
  }

  /** t is o moved so that its beacon q lands on beacon p of s, and then
      shares enough beacons with s. */
  ghost predicate Fits(s: Pointset, o: Pointset, t: Pointset)
  {
    exists p, q :: p in s.points && q in o.points && t == Shifted(o, Minus(p, q)) && LinesUp(s, o, p, q)
  }

  /** Laying beacon q of o on beacon p of s makes them share enough
      beacons. */
  ghost predicate LinesUp(s: Pointset, o: Pointset, p: Point, q: Point)
  {
    Shared(Shifted(o, Minus(p, q)), s) >= MinMatches
  }

  /** No way of laying a beacon of o on one of s shares enough beacons. */
  ghost predicate Misses(s: Pointset, o: Pointset)
  {
    forall p, q {:trigger LinesUp(s, o, p, q)} :: p in s.points && q in o.points ==> !LinesUp(s, o, p, q)
  }

  /** The counting loop of `overlap`. */
  method CountMatches(t: Pointset, s: Pointset) returns (matches: int)
    ensures matches == Shared(t, s)
  {
    matches := 0;
    var rest := t.points;
    while rest != {}
      invariant rest <= t.points
      invariant matches == |(t.points - rest) * s.points|
      decreases |rest|
    {
      var r :| r in rest;
      SharedStep(t.points, s.points, rest, r);
      if r in s.points {
        matches := matches + 1;
      }
      rest := rest - {r};
    }
    assert t.points - rest == t.points;
  }

  lemma SharedStep(t: set<Point>, s: set<Point>, rest: set<Point>, r: Point)
    requires rest <= t && r in rest
    ensures |(t - (rest - {r})) * s| == |(t - rest) * s| + if r in s then 1 else 0
  {
    var done := (t - rest) * s;
    assert r !in done;
    if r in s {
      assert (t - (rest - {r})) * s == done + {r};
    } else {
      assert (t - (rest - {r})) * s == done;
    }
  }

  /** `overlap`: the first placement of o that shares enough beacons with
      s, in whatever order the sets are walked, or none. */
  method Overlap(s: Pointset, o: Pointset) returns (r: Option<Pointset>)
    ensures r.Some? ==> Fits(s, o, r.value)
    ensures r.None? ==> Misses(s, o)
  {
    var ps := s.points;
    while ps != {}
      invariant ps <= s.points
      invariant forall p, q :: p in s.points - ps && q in o.points ==> !LinesUp(s, o, p, q)
      decreases |ps|
    {
      var p :| p in ps;
      var qs := o.points;
      while qs != {}
        invariant qs <= o.points
        invariant forall q :: q in o.points - qs ==> !LinesUp(s, o, p, q)
        decreases |qs|
      {
        var q :| q in qs;
        var t := OffsetPointset(o, Minus(p, q));
        var matches := CountMatches(t, s);
        if matches >= MinMatches {
          return Some(t);
        }
        qs := qs - {q};
      }
      ps := ps - {p};
    }
    return None;
  }
  // ---------------------------------------------------------------- align

  /** A scanner: its name line, its report and the report's 24
      orientations. */
  datatype Device = Device(name: string, pointset: Pointset, orientations: seq<Pointset>)

  /** The outcome of `align`: every scanner placed; a pass that placed
      none, which the source reports with `log.Fatalf` together with the
      scanners placed so far; or no scanners at all, where `devices[0]`
      panics. */
  datatype Alignment = Aligned(found: map<nat, Pointset>) | Stuck(found: map<nat, Pointset>) | NoDevices

  /** How the scanners were placed: the order of placing, and for each
      scanner but 0 the scanner and the orientation it was fitted onto. */
  datatype Trail = Trail(rank: map<nat, nat>, via: map<nat, (nat, nat)>, time: nat)

  /** Scanner i was placed by fitting its orientation k onto scanner j,
      which was placed before it. */
  ghost predicate PlacedVia(devices: seq<Device>, found: map<nat, Pointset>, h: Trail, i: int, j: int, k: int)
  {
    0 <= i < |devices| && i in found && j in found && i in h.rank && j in h.rank && h.rank[j] < h.rank[i] &&
    0 <= k < |devices[i].orientations| && Fits(found[j], devices[i].orientations[k], found[i])
  }

  /** Scanner 0 keeps its own report, and every other placed scanner was
      placed via an earlier one. */
  ghost predicate Placed(devices: seq<Device>, found: map<nat, Pointset>, h: Trail)
  {
    |devices| > 0 && found.Keys == h.rank.Keys && h.via.Keys == found.Keys - {0} &&
    (forall i :: i in found ==> 0 <= i < |devices|) &&
    0 in found && found[0] == devices[0].pointset &&
    (forall i {:trigger h.via[i]} :: i in h.via ==> PlacedVia(devices, found, h, i, h.via[i].0, h.via[i].1)) &&
    forall x :: x in h.rank ==> h.rank[x] < h.time
  }

  /** Pairs in `checked` with i still unplaced had no orientation of i fit
      onto j. */
  ghost predicate Tried(devices: seq<Device>, found: map<nat, Pointset>, checked: set<(int, int)>)
  {
    forall i, j :: (i, j) in checked && i !in found ==>
      (0 <= i < |devices| && j in found &&
       forall k :: 0 <= k < |devices[i].orientations| ==> Misses(found[j], devices[i].orientations[k]))
  }

  /** No orientation of an unplaced scanner fits onto a placed one. */
  ghost predicate Stalled(devices: seq<Device>, found: map<nat, Pointset>)
  {
    forall i, j, k :: 0 <= i < |devices| && i !in found && j in found && 0 <= k < |devices[i].orientations| ==>
      Misses(found[j], devices[i].orientations[k])
  }

  /** The scanner numbers 0 .. n-1. */
  function Indices(n: nat): (r: set<int>)
    ensures forall i :: i in r <==> 0 <= i < n
    ensures |r| == n
  {
    if n == 0 then {} else Indices(n - 1) + {n - 1}
  }

  function Unplaced(devices: seq<Device>, found: map<nat, Pointset>): set<int>
  {
    Indices(|devices|) - found.Keys
  }

  /** What `align` keeps between steps: the placements, how they were
      made, and the pairs already tried. */
  ghost predicate Good(devices: seq<Device>, found: map<nat, Pointset>, h: Trail, checked: set<(int, int)>)
  {
    Placed(devices, found, h) && Tried(devices, found, checked)
  }

  /** The trail after placing scanner i by orientation k onto j. */
  function Place(h: Trail, i: nat, j: nat, k: nat): Trail
  {
    Trail(h.rank[i := h.time], h.via[i := (j, k)], h.time + 1)
  }

  /** Placing scanner i keeps every earlier placement and every failed
      try valid. */
  lemma PlaceOne(devices: seq<Device>, found: map<nat, Pointset>, h: Trail, checked: set<(int, int)>,
                 i: nat, j: nat, k: nat, t: Pointset)
    requires Good(devices, found, h, checked)
    requires 0 <= i < |devices| && i !in found && j in found
    requires 0 <= k < |devices[i].orientations| && Fits(found[j], devices[i].orientations[k], t)
    ensures Good(devices, found[i := t], Place(h, i, j, k), checked)
  {
    PlacedKeep(devices, found, h, i, j, k, t);
    TriedKeep(devices, found, checked, i, t);
  }

  lemma PlacedKeep(devices: seq<Device>, found: map<nat, Pointset>, h: Trail, i: nat, j: nat, k: nat, t: Pointset)
    requires Placed(devices, found, h)
    requires 0 <= i < |devices| && i !in found && j in found
    requires 0 <= k < |devices[i].orientations| && Fits(found[j], devices[i].orientations[k], t)
    ensures Placed(devices, found[i := t], Place(h, i, j, k))
  {
    var found', h' := found[i := t], Place(h, i, j, k);
    forall x {:trigger h'.via[x]} | x in h'.via
      ensures PlacedVia(devices, found', h', x, h'.via[x].0, h'.via[x].1)
    {
      ViaKeep(devices, found, h, i, j, k, t, x);
    }
    assert found'.Keys == h'.rank.Keys && h'.via.Keys == found'.Keys - {0};
  }

  lemma ViaKeep(devices: seq<Device>, found: map<nat, Pointset>, h: Trail, i: nat, j: nat, k: nat, t: Pointset, x: nat)
    requires Placed(devices, found, h)
    requires 0 <= i < |devices| && i !in found && j in found
    requires 0 <= k < |devices[i].orientations| && Fits(found[j], devices[i].orientations[k], t)
    requires x in Place(h, i, j, k).via
    ensures PlacedVia(devices, found[i := t], Place(h, i, j, k), x, Place(h, i, j, k).via[x].0, Place(h, i, j, k).via[x].1)
  {
    var found', h' := found[i := t], Place(h, i, j, k);
    if x != i {
      var y, m := h.via[x].0, h.via[x].1;
      assert PlacedVia(devices, found, h, x, y, m);
      assert found'[y] == found[y] && found'[x] == found[x];
    }
  }

  lemma TriedKeep(devices: seq<Device>, found: map<nat, Pointset>, checked: set<(int, int)>, i: nat, t: Pointset)
    requires Tried(devices, found, checked) && i !in found
    ensures Tried(devices, found[i := t], checked)
  {
    forall a, b | (a, b) in checked && a !in found[i := t]
      ensures 0 <= a < |devices| && b in found[i := t]
      ensures forall k :: 0 <= k < |devices[a].orientations| ==> Misses(found[i := t][b], devices[a].orientations[k])
    {
      assert found[i := t][b] == found[b];
    }
  }

  /** The orientation loop of `align`: the first orientation of scanner i
      that `overlap` places onto the report of scanner j, or none. */
  method FirstFit(source: Pointset, orientations: seq<Pointset>) returns (r: Option<Pointset>, ghost k: nat)
    ensures r.Some? ==> 0 <= k < |orientations| && Fits(source, orientations[k], r.value)
    ensures r.None? ==> forall m :: 0 <= m < |orientations| ==> Misses(source, orientations[m])
  {
    k := 0;
    for m := 0 to |orientations|
      invariant forall m' :: 0 <= m' < m ==> Misses(source, orientations[m'])
    {
      var o := Overlap(source, orientations[m]);
      if o.None? {
        continue;
      }
      return o, m;
    }
    return None, k;
  }

  /** One pair of the device loop of `align`: scanner i tried against the
      placed scanner j, which marks the pair as tried. */
  method TryPair(devices: seq<Device>, i: nat, j: nat, found: map<nat, Pointset>, checked: set<(int, int)>,
                 ghost h: Trail)
    returns (placed: bool, found': map<nat, Pointset>, ghost h': Trail)
    requires Good(devices, found, h, checked) && 0 <= i < |devices| && i !in found && j in found
    ensures Good(devices, found', h', checked + {(i, j)})
    ensures placed ==> i in found' && found' == found[i := found'[i]]
    ensures !placed ==> found' == found
  {
    var o, k := FirstFit(found[j], devices[i].orientations);
    if o.None? {
      return false, found, h;
    }
    PlaceOne(devices, found, h, checked, i, j, k, o.value);
    placed, found', h' := true, found[i := o.value], Place(h, i, j, k);
  }

  /** One turn of the device loop of `align`: scanner i against every
      placed scanner it has not been tried against, until one fits. */
  method TryDevice(devices: seq<Device>, i: nat, found: map<nat, Pointset>, checked: set<(int, int)>,
                   ghost h: Trail)
    returns (placed: bool, found': map<nat, Pointset>, checked': set<(int, int)>, ghost h': Trail)
    requires Good(devices, found, h, checked) && 0 <= i < |devices| && i !in found
    ensures Good(devices, found', h', checked') && checked <= checked'
    ensures placed ==> i in found' && found' == found[i := found'[i]]
    ensures !placed ==> found' == found && forall b :: b in found ==> (i, b) in checked'
  {
    found', checked', h' := found, checked, h;
    placed := false;
    for j := 0 to |devices|
      invariant Good(devices, found, h', checked') && checked <= checked' && found' == found && !placed
      invariant forall b :: 0 <= b < j && b in found ==> (i, b) in checked'
    {
      if i == j || j !in found || (i, j) in checked' {
        continue;
      }
      placed, found', h' := TryPair(devices, i, j, found, checked', h');
      checked' := checked' + {(i, j)};
      if placed {
        return;
      }
    }
  }

  /** Every unplaced scanner below n was tried against every placed one. */
  ghost predicate Swept(devices: seq<Device>, found: map<nat, Pointset>, checked: set<(int, int)>, n: int)
  {
    forall a, b :: 0 <= a < n && a !in found && b in found ==> (a, b) in checked
  }

  lemma SweptStep(devices: seq<Device>, found: map<nat, Pointset>, checked: set<(int, int)>,
                  checked': set<(int, int)>, i: int)
    requires Swept(devices, found, checked, i) && checked <= checked'
    requires i in found || forall b :: b in found ==> (i, b) in checked'
    ensures Swept(devices, found, checked', i + 1)
  {
  }

  /** A full pass that placed nothing leaves the placement stalled. */
  lemma SweptStalled(devices: seq<Device>, found: map<nat, Pointset>, checked: set<(int, int)>)
    requires Tried(devices, found, checked) && Swept(devices, found, checked, |devices|)
    ensures Stalled(devices, found)
  {
    forall i, j, k | 0 <= i < |devices| && i !in found && j in found && 0 <= k < |devices[i].orientations|
      ensures Misses(found[j], devices[i].orientations[k])
    {
      assert (i, j) in checked;
    }
  }

  lemma UnplacedStep(devices: seq<Device>, found: map<nat, Pointset>, i: nat, t: Pointset)
    requires 0 <= i < |devices| && i !in found
    ensures |Unplaced(devices, found[i := t])| == |Unplaced(devices, found)| - 1
  {
    assert i in Unplaced(devices, found);
    assert Unplaced(devices, found[i := t]) == Unplaced(devices, found) - {i};
  }

  lemma NoneUnplaced(devices: seq<Device>, found: map<nat, Pointset>)
    requires |Unplaced(devices, found)| == 0
    ensures forall i :: 0 <= i < |devices| ==> i in found
  {
    assert Unplaced(devices, found) == {};
    forall i | 0 <= i < |devices|
      ensures i in found
    {
      assert i in Indices(|devices|);
    }
  }

  /** `align`: passes over the unplaced scanners, each tried once against
      every placed one, until all are placed or a pass places none. */
  method Align(devices: seq<Device>) returns (r: Alignment, ghost h: Trail)
    ensures r == NoDevices <==> |devices| == 0
    ensures r.Aligned? ==> Placed(devices, r.found, h) && forall i :: 0 <= i < |devices| ==> i in r.found
    ensures r.Stuck? ==> Placed(devices, r.found, h) && Unplaced(devices, r.found) != {} && Stalled(devices, r.found)
  {
    h := Trail(map[0 := 0], map[], 1);
    if |devices| == 0 {
      return NoDevices, h;
    }
    var found: map<nat, Pointset> := map[0 := devices[0].pointset];
    var checked: set<(int, int)> := {};
    var remaining := |devices| - 1;
    assert Unplaced(devices, found) == Indices(|devices|) - {0};
    while remaining > 0
      invariant Good(devices, found, h, checked)
      invariant remaining == |Unplaced(devices, found)|
      decreases remaining
    {
      var thisloop := 0;
      ghost var found0, remaining0 := found, remaining;
      for i := 0 to |devices|
        invariant Good(devices, found, h, checked)
        invariant remaining == |Unplaced(devices, found)| && remaining + thisloop == remaining0
        invariant thisloop == 0 ==> found == found0
        invariant thisloop == 0 ==> Swept(devices, found, checked, i)
      {
        if i in found {
          if thisloop == 0 {
            SweptStep(devices, found, checked, checked, i);
          }
          continue;
        }
        var placed;
        ghost var before, checked0 := found, checked;
        placed, found, checked, h := TryDevice(devices, i, found, checked, h);
        if placed {
          UnplacedStep(devices, before, i, found[i]);
          remaining := remaining - 1;
          thisloop := thisloop + 1;
        } else if thisloop == 0 {
          SweptStep(devices, found, checked0, checked, i);
        }
      }
      if thisloop == 0 {
        SweptStalled(devices, found, checked);
        return Stuck(found), h;
      }
    }
    NoneUnplaced(devices, found);
    r := Aligned(found);
  }

  /** The placements that lead from scanner i back to scanner 0. */
  ghost function Chain(devices: seq<Device>, found: map<nat, Pointset>, h: Trail, i: nat): seq<nat>
    requires Placed(devices, found, h) && i in found
    decreases h.rank[i]
  {
    if i == 0 then [0]
    else
      assert PlacedVia(devices, found, h, i, h.via[i].0, h.via[i].1);
      [i] + Chain(devices, found, h, h.via[i].0)
  }

  /** Every placed scanner is linked to scanner 0 by a chain of fitted
      pairs, each scanner fitted onto the next, so every placed report is
      in scanner 0's frame. */
  lemma {:induction false} ChainLinks(devices: seq<Device>, found: map<nat, Pointset>, h: Trail, i: nat)
    requires Placed(devices, found, h) && i in found
    ensures var r := Chain(devices, found, h, i);
      |r| >= 1 && r[0] == i && r[|r| - 1] == 0 &&
      (forall n :: 0 <= n < |r| ==> r[n] in found) &&
      forall n :: 0 <= n < |r| - 1 ==>
        r[n] in h.via && h.via[r[n]].0 == r[n + 1] && PlacedVia(devices, found, h, r[n], r[n + 1], h.via[r[n]].1)
    decreases h.rank[i]
  {
    if i != 0 {
      var j := h.via[i].0;
      assert PlacedVia(devices, found, h, i, j, h.via[i].1);
      ChainLinks(devices, found, h, j);
      var r := Chain(devices, found, h, i);
      assert r == [i] + Chain(devices, found, h, j);
    }
  }

  // ---------------------------------------------------------------- answers

  /** The beacons reported by the scanners in ks, in scanner 0's frame. */
  function BeaconsOf(found: map<nat, Pointset>, ks: set<int>): set<Point>
  {
    set i, p | i in ks && i in found && p in found[i].points :: p
  }

  lemma BeaconsAdd(found: map<nat, Pointset>, ks: set<int>, i: int)
    requires i in found
    ensures BeaconsOf(found, ks + {i}) == BeaconsOf(found, ks) + found[i].points
  {
    forall p | p in found[i].points
      ensures p in BeaconsOf(found, ks + {i})
    {
      assert i in ks + {i};
    }
  }

  lemma BeaconsCover(found: map<nat, Pointset>, ks: set<int>, i: int)
    requires i in ks && i in found
    ensures found[i].points <= BeaconsOf(found, ks)
  {
  }

  /** The counting loop of `part1`: the number of distinct beacons. */
  method CountBeacons(found: map<nat, Pointset>) returns (n: nat)
    ensures n == |BeaconsOf(found, found.Keys)|
    ensures forall i :: i in found ==> |found[i].points| <= n
  {
    var all: set<Point> := {};
    var keys := found.Keys;
    while keys != {}
      invariant keys <= found.Keys
      invariant all == BeaconsOf(found, found.Keys - keys)
      decreases |keys|
    {
      var i :| i in keys;
      BeaconsAdd(found, found.Keys - keys, i);
      assert found.Keys - (keys - {i}) == (found.Keys - keys) + {i};
      all := all + found[i].points;
      keys := keys - {i};
    }
    assert found.Keys - keys == found.Keys;
    n := |all|;
    forall i | i in found
      ensures |found[i].points| <= n
    {
      BeaconsCover(found, found.Keys, i);
      SubsetSize(found[i].points, all);
    }
  }

  lemma {:induction false} SubsetSize(a: set<Point>, b: set<Point>)
    requires a <= b
    ensures |a| <= |b|
    decreases |b|
  {
    if a != {} {
      var p :| p in a;
      SubsetSize(a - {p}, b - {p});
    }
  }

  /** Manhattan distance between the origins of two placed scanners. */
  function Spread(a: Pointset, b: Pointset): nat
  {
    Norm(Minus(a.origin, b.origin))
  }

  /** The inner loop of `part2`: the running maximum m0 raised to cover
      the distance from a to every placed scanner. */
  method RaiseMax(found: map<nat, Pointset>, a: Pointset, m0: nat) returns (m: nat, ghost w: nat)
    ensures m0 <= m
    ensures forall j :: j in found ==> Spread(a, found[j]) <= m
    ensures m == m0 || (w in found && Spread(a, found[w]) == m)
  {
    m, w := m0, 0;
    var inner := found.Keys;
    while inner != {}
      invariant inner <= found.Keys && m0 <= m
      invariant forall j :: j in found && j !in inner ==> Spread(a, found[j]) <= m
      invariant m == m0 || (w in found && Spread(a, found[w]) == m)
      decreases |inner|
    {
      var j :| j in inner;
      var d := Norm(Minus(a.origin, found[j].origin));
      if d > m {
        m, w := d, j;
      }
      inner := inner - {j};
    }
  }

  /** Every distance from a placed scanner outside rest to a placed
      scanner is at most m. */
  ghost predicate Bounds(found: map<nat, Pointset>, rest: set<nat>, m: nat)
  {
    forall i, j :: i in found && i !in rest && j in found ==> Spread(found[i], found[j]) <= m
  }

  lemma BoundsStep(found: map<nat, Pointset>, rest: set<nat>, i: nat, m0: nat, m: nat)
    requires Bounds(found, rest, m0) && m0 <= m && i in found
    requires forall j :: j in found ==> Spread(found[i], found[j]) <= m
    ensures Bounds(found, rest - {i}, m)
  {
  }

  /** `part2`'s loops: the largest distance between two placed scanners,
      starting from 0. */
  method MaxDistance(found: map<nat, Pointset>) returns (m: nat)
    ensures forall i, j :: i in found && j in found ==> Spread(found[i], found[j]) <= m
    ensures forall k :: k in found ==> exists i, j :: i in found && j in found && Spread(found[i], found[j]) == m
    ensures found == map[] ==> m == 0
  {
    m := 0;
    ghost var wi: nat, wj: nat := 0, 0;
    var outer := found.Keys;
    while outer != {}
      invariant outer <= found.Keys
      invariant Bounds(found, outer, m)
      invariant m == 0 || (wi in found && wj in found && Spread(found[wi], found[wj]) == m)
      decreases |outer|
    {
      var i :| i in outer;
      var m0 := m;
      ghost var w;
      m, w := RaiseMax(found, found[i], m);
      if m != m0 {
        wi, wj := i, w;
      }
      BoundsStep(found, outer, i, m0, m);
      outer := outer - {i};
    }
    Attained(found, m, wi, wj);
  }

  lemma Attained(found: map<nat, Pointset>, m: nat, wi: nat, wj: nat)
    requires Bounds(found, {}, m)
    requires m == 0 || (wi in found && wj in found && Spread(found[wi], found[wj]) == m)
    ensures forall i, j :: i in found && j in found ==> Spread(found[i], found[j]) <= m
    ensures forall k :: k in found ==> exists i, j :: i in found && j in found && Spread(found[i], found[j]) == m
  {
    forall k | k in found
      ensures exists i, j :: i in found && j in found && Spread(found[i], found[j]) == m
    {
      if m == 0 {
        assert Spread(found[k], found[k]) == 0;
      } else {
        assert Spread(found[wi], found[wj]) == m;
      }
    }
  }

  /** `part1`: the number of distinct beacons once every scanner is placed;
      the error cases are `align`'s panic and fatal exit. */
  method Part1(devices: seq<Device>) returns (r: Result<nat>, ghost found: map<nat, Pointset>, ghost h: Trail)
    ensures |devices| == 0 ==> r.Err?
    ensures r.Ok? ==> Placed(devices, found, h) && (forall i :: 0 <= i < |devices| ==> i in found) &&
                      r.value == |BeaconsOf(found, found.Keys)|
    ensures r.Err? && |devices| > 0 ==> Placed(devices, found, h) && Unplaced(devices, found) != {} && Stalled(devices, found)
  {
    var a;
    a, h := Align(devices);
    if a.NoDevices? {
      return Err("index out of range"), map[], h;
    }
    found := a.found;
    if a.Stuck? {
      return Err("Couldn't make any progress"), found, h;
    }
    var n := CountBeacons(a.found);
    r := Ok(n);
  }

  /** `part2`: the largest Manhattan distance between two scanners once
      every scanner is placed. */
  method Part2(devices: seq<Device>) returns (r: Result<nat>, ghost found: map<nat, Pointset>, ghost h: Trail)
    ensures |devices| == 0 ==> r.Err?
    ensures r.Ok? ==> Placed(devices, found, h) && (forall i :: 0 <= i < |devices| ==> i in found) &&
                      (forall i, j :: i in found && j in found ==> Spread(found[i], found[j]) <= r.value) &&
                      exists i, j :: i in found && j in found && Spread(found[i], found[j]) == r.value
    ensures r.Err? && |devices| > 0 ==> Placed(devices, found, h) && Unplaced(devices, found) != {} && Stalled(devices, found)
  {
    var a;
    a, h := Align(devices);
    if a.NoDevices? {
      return Err("index out of range"), map[], h;
    }
    found := a.found;
    if a.Stuck? {
      return Err("Couldn't make any progress"), found, h;
    }
    assert 0 in found;
    var m := MaxDistance(a.found);
    r := Ok(m);
  }
}
