/** 2025 day 12, the pieces: points on the board, the 3x3 shapes ("atoms")
    and the orientations a shape can be placed in. */
module Y2025Day12Shapes {

  // ---------------------------------------------------------------- points

  /** `Point`: a cell of the board, x across and y down. */
  datatype Point = Point(x: int, y: int)

  /** `Point#<=>`: the difference of the x coordinates, or of the y
      coordinates when the x coordinates agree. Only its sign orders. */
  function Compare(p: Point, o: Point): int
  {
    if p.x != o.x then p.x - o.x else p.y - o.y
  }

  /** p sorts before o. */
  predicate Less(p: Point, o: Point) { Compare(p, o) < 0 }

  /** The comparison is lexicographic, x first, and a strict total order:
      swapping the points negates it, and it is zero only for equal points. */
  lemma CompareOrder(p: Point, o: Point)
    ensures Less(p, o) <==> p.x < o.x || (p.x == o.x && p.y < o.y)
    ensures Compare(o, p) == -Compare(p, o)
    ensures Compare(p, o) == 0 <==> p == o
    ensures Less(p, o) || Less(o, p) || p == o
  {
  }

  lemma LessTransitive(p: Point, o: Point, q: Point)
    requires Less(p, o) && Less(o, q)
    ensures Less(p, q)
  {
  }

  /** A point no other point of `s` sorts before: the next one `sort`
      visits. */
  predicate First(p: Point, s: set<Point>)
  {
    p in s && forall q :: q in s ==> !Less(q, p)
  }

  /** Every non-empty set of points has a first point, and only one. */
  lemma {:induction false} FirstExists(s: set<Point>) returns (m: Point)
    requires s != {}
    ensures First(m, s)
    ensures forall m' :: First(m', s) ==> m' == m
    decreases |s|
  {
    var p :| p in s;
    if s == {p} {
      m := p;
    } else {
      var rest := s - {p};
      var m0 := FirstExists(rest);
      if Less(p, m0) {
        m := p;
        forall q | q in s
          ensures !Less(q, m)
        {
          if q != p {
            if Less(q, p) {
              LessTransitive(q, p, m0);
            }
          }
        }
      } else {
        m := m0;
      }
    }
    forall m' | First(m', s)
      ensures m' == m
    {
      CompareOrder(m', m);
    }
  }

  /** `Point#offset`. */
  function Offset(p: Point, dx: int, dy: int): Point
  {
    Point(p.x + dx, p.y + dy)
  }

  /** `Point#neighbors`: the 3x3 block centred on p, row by row, p in the
      middle. */
  function Neighbors(p: Point): seq<Point>
  {
    [Offset(p, -1, -1), Offset(p, 0, -1), Offset(p, 1, -1),
     Offset(p, -1, 0), p, Offset(p, 1, 0),
     Offset(p, -1, 1), Offset(p, 0, 1), Offset(p, 1, 1)]
  }

  /** q lies in the 3x3 block centred on p. */
  predicate Adjacent(p: Point, q: Point)
  {
    -1 <= q.x - p.x <= 1 && -1 <= q.y - p.y <= 1
  }

  /** The neighbours are the nine cells around p, p itself among them,
      each once. */
  lemma NeighborsBlock(p: Point)
    ensures |Neighbors(p)| == 9 && Neighbors(p)[4] == p
    ensures forall q :: q in Neighbors(p) <==> Adjacent(p, q)
    ensures forall i, j :: 0 <= i < j < 9 ==> Neighbors(p)[i] != Neighbors(p)[j]
  {
    var ns := Neighbors(p);
    forall q | Adjacent(p, q)
      ensures q in ns
    {
      var i := 3 * (q.y - p.y + 1) + (q.x - p.x + 1);
      assert ns[i] == q;
    }
  }

  // ---------------------------------------------------------------- atoms

  /** `Atom`: a shape's number and the cells it covers in its 3x3 box. */
  datatype Atom = Atom(id: int, points: set<Point>)

  /** Every cell lies in the box {0,1,2} x {0,1,2}. */
  predicate InBox(ps: set<Point>)
  {
    forall p :: p in ps ==> 0 <= p.x <= 2 && 0 <= p.y <= 2
  }

  /** The horizontal flip of one cell, x to 2 - x. */
  function FlipX(p: Point): Point { Point(2 - p.x, p.y) }

  /** The vertical flip of one cell, y to 2 - y. */
  function FlipY(p: Point): Point { Point(p.x, 2 - p.y) }

  /** The quarter turn of one cell, (x, y) to (2 - y, x). */
  function Turn(p: Point): Point { Point(2 - p.y, p.x) }

  function MirrorX(a: Atom): Atom { Atom(a.id, set p | p in a.points :: FlipX(p)) }

  function MirrorY(a: Atom): Atom { Atom(a.id, set p | p in a.points :: FlipY(p)) }

  function Rotate(a: Atom): Atom { Atom(a.id, set p | p in a.points :: Turn(p)) }

  /** The atom turned k quarter turns. */
  function Rotated(a: Atom, k: nat): Atom
  {
    if k == 0 then a else Rotate(Rotated(a, k - 1))
  }

  /** What `family` adds to the set, in order, over k rounds from the
      turn r: r, then its horizontal and its vertical flip, then the same
      for r turned once more. */
  function CandidatesFrom(r: Atom, k: nat): seq<Atom>
    decreases k
  {
    if k == 0 then [] else [r, MirrorX(r), MirrorY(r)] + CandidatesFrom(Rotate(r), k - 1)
  }

  function Candidates(a: Atom): seq<Atom>
  {
    CandidatesFrom(a, 4)
  }

  /** `Set#<<`: an element already present is not added again, and the
      set keeps the order of first insertion. */
  function Insert(f: seq<Atom>, t: Atom): seq<Atom>
  {
    if t in f then f else f + [t]
  }

  /** The candidates inserted one after another. */
  function InsertAll(f: seq<Atom>, ts: seq<Atom>): seq<Atom>
    decreases |ts|
  {
    if ts == [] then f else InsertAll(Insert(f, ts[0]), ts[1..])
  }

  /** The orientations of an atom, in the order `family` lists them. */
  function Family(a: Atom): seq<Atom>
  {
    InsertAll([], Candidates(a))
  }

  /** One round of inserts, taken off the front of the candidates. */
  lemma InsertRound(f: seq<Atom>, r: Atom, k: nat)
    requires k > 0
    ensures InsertAll(f, CandidatesFrom(r, k))
         == InsertAll(Insert(Insert(Insert(f, r), MirrorX(r)), MirrorY(r)), CandidatesFrom(Rotate(r), k - 1))
  {
    var ts := CandidatesFrom(r, k);
    var f1 := Insert(f, r);
    var f2 := Insert(f1, MirrorX(r));
    assert ts[0] == r && ts[1..][0] == MirrorX(r) && ts[1..][1..][0] == MirrorY(r);
    assert ts[1..][1..][1..] == CandidatesFrom(Rotate(r), k - 1);
    assert InsertAll(f, ts) == InsertAll(f1, ts[1..]);
    assert InsertAll(f1, ts[1..]) == InsertAll(f2, ts[1..][1..]);
  }

  /** `family` without its cache: four rounds, each inserting the current
      turn and its two flips, then turning. */
  method ComputeFamily(a: Atom) returns (f: seq<Atom>)
    ensures f == Family(a)
  {
    f := [];
    var cur := a;
    for k := 0 to 4
      invariant InsertAll(f, CandidatesFrom(cur, 4 - k)) == Family(a)
    {
      InsertRound(f, cur, 4 - k);
      f := Insert(f, cur);
      f := Insert(f, MirrorX(cur));
      f := Insert(f, MirrorY(cur));
      cur := Rotate(cur);
    }
  }

  // ---------------------------------------------------------------- family facts

  /** Inserting keeps every element once and adds exactly the new ones. */
  lemma {:induction false} InsertAllFacts(f: seq<Atom>, ts: seq<Atom>)
    requires forall i, j :: 0 <= i < j < |f| ==> f[i] != f[j]
    ensures var g := InsertAll(f, ts);
      (forall i, j :: 0 <= i < j < |g| ==> g[i] != g[j])
      && (forall t :: t in g <==> t in f || t in ts)
      && |f| <= |g| && g[..|f|] == f
    decreases |ts|
  {
    if ts != [] {
      var f' := Insert(f, ts[0]);
      InsertAllFacts(f', ts[1..]);
      forall t | t in ts
        ensures t == ts[0] || t in ts[1..]
      {
        var k :| 0 <= k < |ts| && ts[k] == t;
        if k > 0 {
          assert ts[1..][k - 1] == t;
        }
      }
      var g := InsertAll(f', ts[1..]);
      assert g[..|f'|] == f';
      assert g[..|f|] == g[..|f'|][..|f|];
    }
  }

  /** A map of points that sends no two points of `s` to the same point
      keeps the number of points. */
  lemma {:induction false} ImageCard(s: set<Point>, f: Point -> Point)
    requires forall p, q :: p in s && q in s && f(p) == f(q) ==> p == q
    ensures |set p | p in s :: f(p)| == |s|
    decreases |s|
  {
    if s != {} {
      var x :| x in s;
      var rest := s - {x};
      ImageCard(rest, f);
      var img := set p | p in s :: f(p);
      var imgRest := set p | p in rest :: f(p);
      assert img == imgRest + {f(x)};
      assert f(x) !in imgRest;
    }
  }

  /** The horizontal flip keeps the number, the cell count and the box. */
  lemma MirrorXKeeps(a: Atom)
    ensures MirrorX(a).id == a.id && |MirrorX(a).points| == |a.points|
    ensures InBox(a.points) ==> InBox(MirrorX(a).points)
  {
    var f: Point -> Point := FlipX;
    ImageCard(a.points, f);
    assert (set p | p in a.points :: f(p)) == MirrorX(a).points;
  }

  /** The quarter turn keeps the number, the cell count and the box. */
  lemma RotateKeeps(a: Atom)
    ensures Rotate(a).id == a.id && |Rotate(a).points| == |a.points|
    ensures InBox(a.points) ==> InBox(Rotate(a).points)
  {
    var f: Point -> Point := Turn;
    ImageCard(a.points, f);
    assert (set p | p in a.points :: f(p)) == Rotate(a).points;
  }

  /** Four quarter turns give the atom back. */
  lemma FullTurn(a: Atom)
    ensures Rotate(Rotate(Rotate(Rotate(a)))) == a
  {
    var r4 := Rotate(Rotate(Rotate(Rotate(a))));
    forall q | q in a.points
      ensures q in r4.points
    {
      var q1 := Turn(q);
      var q2 := Turn(q1);
      var q3 := Turn(q2);
      assert q1 in Rotate(a).points;
      assert q2 in Rotate(Rotate(a)).points;
      assert q3 in Rotate(Rotate(Rotate(a))).points;
      assert Turn(q3) == q;
    }
  }

  /** Flipping twice horizontally gives the atom back. */
  lemma FlipTwice(a: Atom)
    ensures MirrorX(MirrorX(a)) == a
  {
    forall q | q in a.points
      ensures q in MirrorX(MirrorX(a)).points
    {
      assert FlipX(q) in MirrorX(a).points;
    }
  }

  /** The vertical flip is the horizontal flip of the half turn. */
  lemma FlipYIsHalfTurn(a: Atom)
    ensures MirrorY(a) == MirrorX(Rotate(Rotate(a)))
  {
    forall q | q in a.points
      ensures FlipY(q) in MirrorX(Rotate(Rotate(a))).points
    {
      assert Turn(q) in Rotate(a).points;
      assert Turn(Turn(q)) in Rotate(Rotate(a)).points;
    }
    forall q | q in MirrorX(Rotate(Rotate(a))).points
      ensures q in MirrorY(a).points
    {
      var q2 :| q2 in Rotate(Rotate(a)).points && q == FlipX(q2);
      var q1 :| q1 in Rotate(a).points && q2 == Turn(q1);
      var q0 :| q0 in a.points && q1 == Turn(q0);
      assert q == FlipY(q0);
    }
  }

  /** Turning a flipped atom is flipping the atom turned three times. */
  lemma TurnFlip(a: Atom)
    ensures Rotate(MirrorX(a)) == MirrorX(Rotate(Rotate(Rotate(a))))
  {
    var lhs := Rotate(MirrorX(a));
    var rhs := MirrorX(Rotate(Rotate(Rotate(a))));
    forall q | q in a.points
      ensures Turn(FlipX(q)) in rhs.points
    {
      assert Turn(q) in Rotate(a).points;
      assert Turn(Turn(q)) in Rotate(Rotate(a)).points;
      assert Turn(Turn(Turn(q))) in Rotate(Rotate(Rotate(a))).points;
    }
    forall q | q in rhs.points
      ensures q in lhs.points
    {
      var q3 :| q3 in Rotate(Rotate(Rotate(a))).points && q == FlipX(q3);
      var q2 :| q2 in Rotate(Rotate(a)).points && q3 == Turn(q2);
      var q1 :| q1 in Rotate(a).points && q2 == Turn(q1);
      var q0 :| q0 in a.points && q1 == Turn(q0);
      assert FlipX(q0) in MirrorX(a).points;
    }
  }

  /** The eight orientations the candidates come to. */
  function Orientations(a: Atom): set<Atom>
  {
    var r0, r1, r2, r3 := a, Rotate(a), Rotate(Rotate(a)), Rotate(Rotate(Rotate(a)));
    {r0, r1, r2, r3, MirrorX(r0), MirrorX(r1), MirrorX(r2), MirrorX(r3)}
  }

  /** The twelve candidates, written out. */
  function Twelve(a: Atom): seq<Atom>
  {
    var r1, r2, r3 := Rotate(a), Rotate(Rotate(a)), Rotate(Rotate(Rotate(a)));
    [a, MirrorX(a), MirrorY(a), r1, MirrorX(r1), MirrorY(r1),
     r2, MirrorX(r2), MirrorY(r2), r3, MirrorX(r3), MirrorY(r3)]
  }

  lemma CandidatesAreTwelve(a: Atom)
    ensures Candidates(a) == Twelve(a)
  {
    var r1, r2, r3 := Rotate(a), Rotate(Rotate(a)), Rotate(Rotate(Rotate(a)));
    assert CandidatesFrom(r3, 1) == [r3, MirrorX(r3), MirrorY(r3)];
    assert CandidatesFrom(r2, 2) == [r2, MirrorX(r2), MirrorY(r2)] + CandidatesFrom(r3, 1);
    assert CandidatesFrom(r1, 3) == [r1, MirrorX(r1), MirrorY(r1)] + CandidatesFrom(r2, 2);
    assert CandidatesFrom(a, 4) == [a, MirrorX(a), MirrorY(a)] + CandidatesFrom(r1, 3);
  }

  lemma TwelveAreOrientations(a: Atom)
    ensures forall t :: t in Twelve(a) <==> t in Orientations(a)
  {
    var r1, r2, r3 := Rotate(a), Rotate(Rotate(a)), Rotate(Rotate(Rotate(a)));
    FlipYIsHalfTurn(a);
    FlipYIsHalfTurn(r1);
    FlipYIsHalfTurn(r2);
    FlipYIsHalfTurn(r3);
    FullTurn(a);
    FullTurn(r1);
  }

  /** At most eight distinct values. */
  lemma EightAtMost(s: set<Atom>, a: Atom, b: Atom, c: Atom, d: Atom, e: Atom, f: Atom, g: Atom, h: Atom)
    requires s == {a, b, c, d, e, f, g, h}
    ensures |s| <= 8
  {
    var s1 := {a};
    var s2 := s1 + {b};
    var s3 := s2 + {c};
    var s4 := s3 + {d};
    var s5 := s4 + {e};
    var s6 := s5 + {f};
    var s7 := s6 + {g};
    assert s == s7 + {h};
  }

  /** The orientations are closed under turning and flipping: the family
      is the whole orbit of the atom under the symmetries of the square. */
  lemma OrientationsClosed(a: Atom, t: Atom)
    requires t in Orientations(a)
    ensures Rotate(t) in Orientations(a) && MirrorX(t) in Orientations(a) && MirrorY(t) in Orientations(a)
  {
    var r1, r2, r3 := Rotate(a), Rotate(Rotate(a)), Rotate(Rotate(Rotate(a)));
    FullTurn(a);
    FullTurn(r1);
    FullTurn(r2);
    FullTurn(r3);
    FlipTwice(a);
    FlipTwice(r1);
    FlipTwice(r2);
    FlipTwice(r3);
    TurnFlip(a);
    TurnFlip(r1);
    TurnFlip(r2);
    TurnFlip(r3);
    FlipYIsHalfTurn(t);
  }

  /** The candidates are the eight orientations, the vertical flips
      coinciding with horizontal flips of other turns. */
  lemma CandidatesList(a: Atom)
    ensures forall t :: t in Candidates(a) <==> t in Orientations(a)
    ensures Candidates(a)[0] == a
  {
    CandidatesAreTwelve(a);
    TwelveAreOrientations(a);
  }

  /** The family lists each orientation once, the atom first. */
  lemma FamilyElements(a: Atom)
    ensures |Family(a)| >= 1 && Family(a)[0] == a
    ensures forall i, j :: 0 <= i < j < |Family(a)| ==> Family(a)[i] != Family(a)[j]
    ensures forall t :: t in Family(a) <==> t in Orientations(a)
  {
    CandidatesList(a);
    var cs := Candidates(a);
    InsertAllFacts([], cs);
    assert Insert([], a) == [a];
    InsertAllFacts([a], cs[1..]);
    assert Family(a) == InsertAll([a], cs[1..]);
    assert Family(a)[..1] == [a];
  }

  /** Every orientation keeps the number and the cell count, and stays in
      the box when the atom does. */
  lemma OrientationsKeep(a: Atom, t: Atom)
    requires t in Orientations(a)
    ensures t.id == a.id && |t.points| == |a.points|
    ensures InBox(a.points) ==> InBox(t.points)
  {
    var r1, r2, r3 := Rotate(a), Rotate(Rotate(a)), Rotate(Rotate(Rotate(a)));
    RotateKeeps(a);
    RotateKeeps(r1);
    RotateKeeps(r2);
    if t == MirrorX(a) {
      MirrorXKeeps(a);
    } else if t == MirrorX(r1) {
      MirrorXKeeps(r1);
    } else if t == MirrorX(r2) {
      MirrorXKeeps(r2);
    } else if t == MirrorX(r3) {
      MirrorXKeeps(r3);
    }
  }

  /** `family`: one to eight distinct orientations, the atom itself first;
      each keeps the number and the cell count, stays in the box when the
      atom does, and turning or flipping any of them gives another. */
  lemma FamilyFacts(a: Atom)
    ensures 1 <= |Family(a)| <= 8 && Family(a)[0] == a
    ensures forall i, j :: 0 <= i < j < |Family(a)| ==> Family(a)[i] != Family(a)[j]
    ensures forall t :: t in Family(a) <==> t in Orientations(a)
    ensures forall t :: t in Family(a) ==> t.id == a.id && |t.points| == |a.points|
    ensures forall t :: t in Family(a) && InBox(a.points) ==> InBox(t.points)
    ensures forall t :: t in Family(a) ==> Rotate(t) in Family(a) && MirrorX(t) in Family(a) && MirrorY(t) in Family(a)
  {
    FamilyElements(a);
    var r1, r2, r3 := Rotate(a), Rotate(Rotate(a)), Rotate(Rotate(Rotate(a)));
    EightAtMost(Orientations(a), a, r1, r2, r3, MirrorX(a), MirrorX(r1), MirrorX(r2), MirrorX(r3));
    DistinctCard(Family(a), Orientations(a));
    forall t | t in Family(a)
      ensures t.id == a.id && |t.points| == |a.points| && (InBox(a.points) ==> InBox(t.points))
      ensures Rotate(t) in Family(a) && MirrorX(t) in Family(a) && MirrorY(t) in Family(a)
    {
      OrientationsKeep(a, t);
      OrientationsClosed(a, t);
    }
  }

  /** A sequence without repeats whose elements are those of a set is no
      longer than the set. */
  lemma {:induction false} DistinctCard(f: seq<Atom>, s: set<Atom>)
    requires forall i, j :: 0 <= i < j < |f| ==> f[i] != f[j]
    requires forall t :: t in f <==> t in s
    ensures |f| == |s|
    decreases |f|
  {
    if f != [] {
      var last := f[|f| - 1];
      var init := f[..|f| - 1];
      forall t | t in init
        ensures t in s - {last}
      {
        var i :| 0 <= i < |init| && init[i] == t;
        assert f[i] == t;
      }
      forall t | t in s - {last}
        ensures t in init
      {
        var i :| 0 <= i < |f| && f[i] == t;
        assert i < |f| - 1;
        assert init[i] == t;
      }
      DistinctCard(init, s - {last});
    }
  }

  // ---------------------------------------------------------------- the family cache

  /** An atom with the `@family` cache of the source: empty until `family`
      is first asked for, then the whole family. */
  class CachedAtom {
    const atom: Atom
    var family: seq<Atom>

    ghost predicate Valid()
      reads this
    {
      family == [] || family == Family(atom)
    }

    constructor (a: Atom)
      ensures atom == a && family == [] && Valid()
    {
      atom := a;
      family := [];
    }

    /** `Atom#family`: computed on the first call, returned from the cache
        afterwards. */
    method GetFamily() returns (f: seq<Atom>)
      requires Valid()
      modifies this
      ensures Valid() && f == Family(atom) && family == f
      ensures old(family) != [] ==> family == old(family)
    {
      if family == [] {
        family := ComputeFamily(atom);
        FamilyFacts(atom);
      }
      f := family;
    }
  }
}
