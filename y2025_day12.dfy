/** 2025 day 12: fitting shapes into regions. Part 1 counts the goals
    whose shapes fit; it first tries the trivial layout of one shape per
    3x3 block and otherwise searches placements anchor by anchor. Part 2
    has no puzzle. The `shuffle` calls are a parameter. */
module Y2025Day12 {
  import opened Common
  import opened Y2025Day12Shapes
  import opened Y2025Day12Grid
  import opened Y2025Day12Input

  // ---------------------------------------------------------------- goals

  /** The count the `sizes` hash gives shape i: a positive count on the
      line, 0 otherwise. */
  function Wanted(counts: seq<int>, i: int): nat
  {
    if 0 <= i < |counts| && counts[i] > 0 then counts[i] else 0
  }

  /** `[i] * n`. */
  function Repeat(i: int, n: nat): (r: seq<int>)
    ensures |r| == n && forall k :: 0 <= k < n ==> r[k] == i
  {
    if n == 0 then [] else [i] + Repeat(i, n - 1)
  }

  /** `sizes.flat_map {|k, v| [k] * v}` from shape i on: each shape's
      number as often as it is wanted, in the order of the line. */
  function ExpandFrom(counts: seq<int>, i: nat): seq<int>
    decreases |counts| - i
  {
    if i >= |counts| then [] else Repeat(i, Wanted(counts, i)) + ExpandFrom(counts, i + 1)
  }

  function Expanded(counts: seq<int>): seq<int>
  {
    ExpandFrom(counts, 0)
  }

  /** `sizes.values.sum` from shape i on. */
  function SizesFrom(counts: seq<int>, i: nat): nat
    decreases |counts| - i
  {
    if i >= |counts| then 0 else Wanted(counts, i) + SizesFrom(counts, i + 1)
  }

  function SizesSum(counts: seq<int>): nat
  {
    SizesFrom(counts, 0)
  }

  lemma RepeatCount(i: int, n: nat)
    ensures forall j :: multiset(Repeat(i, n))[j] == if j == i then n else 0
  {
    if n > 0 {
      RepeatCount(i, n - 1);
      assert Repeat(i, n) == [i] + Repeat(i, n - 1);
    }
  }

  lemma {:induction false} ExpandFromLength(counts: seq<int>, i: nat)
    ensures |ExpandFrom(counts, i)| == SizesFrom(counts, i)
    decreases |counts| - i
  {
    if i < |counts| {
      ExpandFromLength(counts, i + 1);
    }
  }

  lemma {:induction false} ExpandFromMembers(counts: seq<int>, i: nat)
    ensures forall x :: x in ExpandFrom(counts, i) ==> i <= x < |counts| && counts[x] > 0
    decreases |counts| - i
  {
    if i < |counts| {
      ExpandFromMembers(counts, i + 1);
      var r := Repeat(i, Wanted(counts, i));
      assert ExpandFrom(counts, i) == r + ExpandFrom(counts, i + 1);
      assert forall x :: x in r ==> x == i && counts[i] > 0;
    }
  }

  lemma {:induction false} ExpandFromCounts(counts: seq<int>, i: nat)
    ensures forall j :: multiset(ExpandFrom(counts, i))[j] == if j >= i then Wanted(counts, j) else 0
    decreases |counts| - i
  {
    if i < |counts| {
      ExpandFromCounts(counts, i + 1);
      RepeatCount(i, Wanted(counts, i));
      var r := Repeat(i, Wanted(counts, i));
      var rest := ExpandFrom(counts, i + 1);
      assert multiset(ExpandFrom(counts, i)) == multiset(r) + multiset(rest);
      forall j
        ensures multiset(ExpandFrom(counts, i))[j] == if j >= i then Wanted(counts, j) else 0
      {
        assert multiset(ExpandFrom(counts, i))[j] == multiset(r)[j] + multiset(rest)[j];
      }
    } else {
      forall j | j >= i
        ensures Wanted(counts, j) == 0
      {
      }
    }
  }

  lemma ExpandFromFacts(counts: seq<int>, i: nat)
    ensures |ExpandFrom(counts, i)| == SizesFrom(counts, i)
    ensures forall x :: x in ExpandFrom(counts, i) ==> i <= x < |counts| && counts[x] > 0
    ensures forall j :: multiset(ExpandFrom(counts, i))[j] == if j >= i then Wanted(counts, j) else 0
  {
    ExpandFromLength(counts, i);
    ExpandFromMembers(counts, i);
    ExpandFromCounts(counts, i);
  }

  /** The expanded list holds each shape's number exactly as often as the
      goal wants it, so its length is the number of shapes wanted. */
  lemma ExpandedFacts(counts: seq<int>)
    ensures |Expanded(counts)| == SizesSum(counts)
    ensures forall x :: x in Expanded(counts) ==> 0 <= x < |counts| && counts[x] > 0
    ensures forall j :: multiset(Expanded(counts))[j] == Wanted(counts, j)
  {
    ExpandFromFacts(counts, 0);
    forall j
      ensures multiset(Expanded(counts))[j] == Wanted(counts, j)
    {
      if j < 0 {
        assert Wanted(counts, j) == 0;
      }
    }
  }

  /** Some shape the goal wants has no block in the input. */
  predicate Missing(counts: seq<int>, n: int)
  {
    exists i :: 0 <= i < |counts| && counts[i] > 0 && i >= n
  }

  predicate InRange(order: seq<int>, n: int)
  {
    forall k :: 0 <= k < |order| ==> 0 <= order[k] < n
  }

  /** A shuffle of the expanded list holds only wanted shape numbers, as
      many as are wanted, and names a missing shape exactly when the goal
      wants one. */
  lemma OrderFacts(counts: seq<int>, order: seq<int>, n: int)
    requires multiset(order) == multiset(Expanded(counts))
    ensures |order| == SizesSum(counts)
    ensures forall k :: 0 <= k < |order| ==> 0 <= order[k] < |counts| && counts[order[k]] > 0
    ensures !InRange(order, n) <==> Missing(counts, n)
  {
    ExpandedFacts(counts);
    assert |order| == |multiset(order)| == |multiset(Expanded(counts))|;
    forall k | 0 <= k < |order|
      ensures 0 <= order[k] < |counts| && counts[order[k]] > 0
    {
      assert order[k] in multiset(order);
    }
    if Missing(counts, n) {
      var i :| 0 <= i < |counts| && counts[i] > 0 && i >= n;
      assert multiset(order)[i] > 0;
      assert i in order;
    }
  }

  // ---------------------------------------------------------------- the trivial layout

  /** The top-left corner `trivial_solve` gives the k-th shape: steps of
      three to the right, and a new band three rows down once the next
      block would reach into the last two columns. */
  function Slot(k: nat, w: int): Point
  {
    if k == 0 then Point(0, 0)
    else
      var p := Slot(k - 1, w);
      if p.x + 5 >= w then Point(0, p.y + 3) else Point(p.x + 3, p.y)
  }

  /** Blocks per band: a third of the width, but at least one. */
  function PerRow(w: int): nat
  {
    if w < 3 then 1 else w / 3
  }

  /** The k-th slot is column m of band q, where k = q * PerRow + m. */
  lemma {:induction false} SlotForm(k: nat, w: int) returns (q: nat, m: nat)
    ensures m < PerRow(w) && k == PerRow(w) * q + m
    ensures Slot(k, w) == Point(3 * m, 3 * q)
  {
    if k == 0 {
      q, m := 0, 0;
    } else {
      var q0, m0 := SlotForm(k - 1, w);
      if 3 * m0 + 5 >= w {
        assert m0 == PerRow(w) - 1;
        q, m := q0 + 1, 0;
      } else {
        q, m := q0, m0 + 1;
      }
    }
  }

  /** Different shapes get different slots. */
  lemma SlotsDiffer(j: nat, k: nat, w: int)
    requires j != k
    ensures Slot(j, w) != Slot(k, w)
  {
    var qj, mj := SlotForm(j, w);
    var qk, mk := SlotForm(k, w);
  }

  /** The cells `trivial_solve` writes for the shapes of `order`, later
      shapes written over earlier ones. */
  function Layout(atoms: seq<Atom>, order: seq<int>, w: int): map<Point, Cell>
    requires InRange(order, |atoms|)
  {
    if order == [] then map[]
    else
      var n := |order| - 1;
      var s := Slot(n, w);
      Layout(atoms, order[..n], w) + Placement(atoms[order[n]], s.x, s.y)
  }

  predicate AllInBox(atoms: seq<Atom>)
  {
    forall k :: 0 <= k < |atoms| ==> InBox(atoms[k].points)
  }

  /** Every written cell comes from some shape's block. */
  lemma {:induction false} LayoutSources(atoms: seq<Atom>, order: seq<int>, w: int, c: Point) returns (k: nat)
    requires InRange(order, |atoms|) && c in Layout(atoms, order, w)
    ensures k < |order| && Offset(c, -Slot(k, w).x, -Slot(k, w).y) in atoms[order[k]].points
  {
    var n := |order| - 1;
    var s := Slot(n, w);
    var a := atoms[order[n]];
    var init := order[..n];
    assert InRange(init, |atoms|);
    assert Layout(atoms, order, w) == Layout(atoms, init, w) + Placement(a, s.x, s.y);
    if c in Placement(a, s.x, s.y) {
      ShiftedMembers(a.points, s.x, s.y);
      k := n;
    } else {
      k := LayoutSources(atoms, init, w, c);
      assert init[k] == order[k];
    }
  }

  /** A cell of the 3x3 box at one slot is a cell of the box at another
      slot only when the two slots are the same. */
  lemma BlocksApart(j: nat, k: nat, w: int, p: Point, q: Point)
    requires 0 <= p.x <= 2 && 0 <= p.y <= 2
    ensures (Offset(p, Slot(j, w).x, Slot(j, w).y) == Offset(q, Slot(k, w).x, Slot(k, w).y) &&
             0 <= q.x <= 2 && 0 <= q.y <= 2) ==> j == k
  {
    var qj, mj := SlotForm(j, w);
    var qk, mk := SlotForm(k, w);
    assert qj == qk && mj == mk ==> j == k;
  }

  lemma InPlacement(a: Atom, dx: int, dy: int, p: Point)
    requires p in a.points
    ensures Offset(p, dx, dy) in Placement(a, dx, dy) && Placement(a, dx, dy)[Offset(p, dx, dy)] == Piece(a.id)
  {
    PlacementFacts(a, dx, dy);
  }

  lemma OutOfPlacement(a: Atom, dx: int, dy: int, c: Point)
    requires Offset(c, -dx, -dy) !in a.points
    ensures c !in Placement(a, dx, dy)
  {
    ShiftedMembers(a.points, dx, dy);
  }

  lemma PlacementSource(a: Atom, dx: int, dy: int, c: Point)
    requires c in Placement(a, dx, dy)
    ensures Offset(c, -dx, -dy) in a.points && Placement(a, dx, dy)[c] == Piece(a.id)
  {
    ShiftedMembers(a.points, dx, dy);
  }

  /** With boxed shapes no block overlaps another: every cell of every
      shape is written, under that shape's number. */
  lemma {:induction false} LayoutCell(atoms: seq<Atom>, order: seq<int>, w: int, k: nat, p: Point)
    requires InRange(order, |atoms|) && AllInBox(atoms)
    requires k < |order| && p in atoms[order[k]].points
    ensures Offset(p, Slot(k, w).x, Slot(k, w).y) in Layout(atoms, order, w)
    ensures Layout(atoms, order, w)[Offset(p, Slot(k, w).x, Slot(k, w).y)] == Piece(atoms[order[k]].id)
  {
    var n := |order| - 1;
    var s := Slot(n, w);
    var sk := Slot(k, w);
    var last := atoms[order[n]];
    var init := order[..n];
    assert InRange(init, |atoms|);
    var pl := Placement(last, s.x, s.y);
    assert Layout(atoms, order, w) == Layout(atoms, init, w) + pl;
    var c := Offset(p, sk.x, sk.y);
    if k == n {
      InPlacement(last, s.x, s.y, p);
    } else {
      assert init[k] == order[k];
      LayoutCell(atoms, init, w, k, p);
      var o := Offset(c, -s.x, -s.y);
      assert Offset(o, s.x, s.y) == c;
      assert InBox(atoms[order[k]].points) && InBox(last.points);
      BlocksApart(k, n, w, p, o);
      assert o !in last.points;
      OutOfPlacement(last, s.x, s.y, c);
    }
  }

  lemma LayoutKeeps(atoms: seq<Atom>, order: seq<int>, w: int)
    requires InRange(order, |atoms|) && AllInBox(atoms)
    ensures forall k, p :: 0 <= k < |order| && p in atoms[order[k]].points ==>
      Offset(p, Slot(k, w).x, Slot(k, w).y) in Layout(atoms, order, w) &&
      Layout(atoms, order, w)[Offset(p, Slot(k, w).x, Slot(k, w).y)] == Piece(atoms[order[k]].id)
  {
    forall k, p | 0 <= k < |order| && p in atoms[order[k]].points
      ensures Offset(p, Slot(k, w).x, Slot(k, w).y) in Layout(atoms, order, w) &&
        Layout(atoms, order, w)[Offset(p, Slot(k, w).x, Slot(k, w).y)] == Piece(atoms[order[k]].id)
    {
      LayoutCell(atoms, order, w, k, p);
    }
  }

  lemma MulMonotone(f: nat, a: nat, b: nat)
    requires a <= b
    ensures f * a <= f * b
  {
  }

  lemma PositiveFactor(a: nat, b: nat)
    requires a * b > 0
    ensures a > 0
  {
  }

  /** A slot numbered below the count of whole blocks keeps its box inside
      the region. */
  lemma SlotInside(k: nat, w: nat, h: nat, o: Point)
    requires k < (w / 3) * (h / 3) && 0 <= o.x <= 2 && 0 <= o.y <= 2
    ensures 0 <= Offset(o, Slot(k, w).x, Slot(k, w).y).x < w
    ensures 0 <= Offset(o, Slot(k, w).x, Slot(k, w).y).y < h
  {
    var q, m := SlotForm(k, w);
    PositiveFactor(w / 3, h / 3);
    assert w >= 3;
    var f := PerRow(w);
    assert f == w / 3 && 3 * f <= w;
    if q >= h / 3 {
      MulMonotone(f, h / 3, q);
    }
    assert q < h / 3;
    assert 3 * (h / 3) <= h;
  }

  lemma CellInside(atoms: seq<Atom>, order: seq<int>, w: nat, h: nat, c: Point)
    requires InRange(order, |atoms|) && AllInBox(atoms)
    requires |order| <= (w / 3) * (h / 3) && c in Layout(atoms, order, w)
    ensures 0 <= c.x < w && 0 <= c.y < h
  {
    var k := LayoutSources(atoms, order, w, c);
    var s := Slot(k, w);
    var o := Offset(c, -s.x, -s.y);
    assert InBox(atoms[order[k]].points);
    SlotInside(k, w, h, o);
    assert Offset(o, s.x, s.y) == c;
  }

  /** When no more shapes are wanted than there are whole blocks, every
      written cell lies inside the region. */
  lemma LayoutInside(atoms: seq<Atom>, order: seq<int>, w: nat, h: nat)
    requires InRange(order, |atoms|) && AllInBox(atoms)
    requires |order| <= (w / 3) * (h / 3)
    ensures forall c :: c in Layout(atoms, order, w) ==> 0 <= c.x < w && 0 <= c.y < h
  {
    forall c | c in Layout(atoms, order, w)
      ensures 0 <= c.x < w && 0 <= c.y < h
    {
      CellInside(atoms, order, w, h, c);
    }
  }

  lemma UpdateUnion(points: map<Point, Cell>, placed: map<Point, Cell>, o: Point, v: Cell)
    ensures (points + placed)[o := v] == points + placed[o := v]
  {
  }

  /** `a.points.each {|p| points[p.offset x, y] = a.id}`. */
  method Stamp(points: map<Point, Cell>, a: Atom, dx: int, dy: int) returns (r: map<Point, Cell>)
    ensures r == points + Placement(a, dx, dy)
  {
    r := points;
    ghost var placed: map<Point, Cell> := map[];
    var todo := a.points;
    while todo != {}
      invariant todo <= a.points
      invariant Placed(a, dx, dy, placed, todo)
      invariant r == points + placed
      decreases |todo|
    {
      var p :| p in todo;
      var o := Offset(p, dx, dy);
      assert Offset(o, -dx, -dy) == p;
      UpdateUnion(points, placed, o, Piece(a.id));
      r := r[o := Piece(a.id)];
      placed := placed[o := Piece(a.id)];
      todo := todo - {p};
    }
    PlacedDone(a, dx, dy, placed);
  }

  lemma LayoutStep(atoms: seq<Atom>, order: seq<int>, k: nat, w: int)
    requires k < |order| && InRange(order[..k], |atoms|) && 0 <= order[k] < |atoms|
    ensures InRange(order[..k + 1], |atoms|)
    ensures Layout(atoms, order[..k + 1], w) ==
      Layout(atoms, order[..k], w) + Placement(atoms[order[k]], Slot(k, w).x, Slot(k, w).y)
  {
    assert order[..k + 1][..k] == order[..k];
  }

  lemma SlotStep(k: nat, w: int)
    ensures Slot(k + 1, w) ==
      if Slot(k, w).x + 3 + 2 >= w then Point(0, Slot(k, w).y + 3) else Point(Slot(k, w).x + 3, Slot(k, w).y)
  {
  }

  /** `trivial_solve` with the shuffled list given: nil when more shapes
      are wanted than there are whole 3x3 blocks; a missing shape raises;
      otherwise the fresh grid holding every shape in its own block. */
  method TrivialSolve(goal: Goal, atoms: seq<Atom>, order: seq<int>) returns (r: Result<Option<Grid>>)
    requires multiset(order) == multiset(Expanded(goal.counts))
    ensures r == Ok(None) <==> SizesSum(goal.counts) > (goal.width / 3) * (goal.height / 3)
    ensures r.Err? <==> SizesSum(goal.counts) <= (goal.width / 3) * (goal.height / 3) && Missing(goal.counts, |atoms|)
    ensures r.Ok? && r.value.Some? ==>
      InRange(order, |atoms|) && r.value.value == Fresh(goal.width, goal.height, Layout(atoms, order, goal.width))
  {
    OrderFacts(goal.counts, order, |atoms|);
    if SizesSum(goal.counts) > (goal.width / 3) * (goal.height / 3) {
      return Ok(None);
    }
    var x, y := 0, 0;
    var points: map<Point, Cell> := map[];
    for k := 0 to |order|
      invariant InRange(order[..k], |atoms|)
      invariant Point(x, y) == Slot(k, goal.width)
      invariant points == Layout(atoms, order[..k], goal.width)
    {
      if order[k] >= |atoms| {
        return Err("NoMethodError");
      }
      LayoutStep(atoms, order, k, goal.width);
      SlotStep(k, goal.width);
      points := Stamp(points, atoms[order[k]], x, y);
      x := x + 3;
      if x + 2 >= goal.width {
        x := 0;
        y := y + 3;
      }
    }
    assert order[..|order|] == order;
    var g := Build(goal.width, goal.height, points, None);
    r := Ok(Some(g.value));
  }

  /** The trivial layout of boxed shapes fits: every cell inside the
      region, every shape whole under its own number. */
  lemma TrivialFits(goal: Goal, atoms: seq<Atom>, order: seq<int>)
    requires multiset(order) == multiset(Expanded(goal.counts))
    requires InRange(order, |atoms|) && AllInBox(atoms)
    requires SizesSum(goal.counts) <= (goal.width / 3) * (goal.height / 3)
    ensures forall c :: c in Layout(atoms, order, goal.width) ==> 0 <= c.x < goal.width && 0 <= c.y < goal.height
    ensures forall k, p :: 0 <= k < |order| && p in atoms[order[k]].points ==>
      Offset(p, Slot(k, goal.width).x, Slot(k, goal.width).y) in Layout(atoms, order, goal.width) &&
      Layout(atoms, order, goal.width)[Offset(p, Slot(k, goal.width).x, Slot(k, goal.width).y)] == Piece(atoms[order[k]].id)
  {
    OrderFacts(goal.counts, order, |atoms|);
    LayoutInside(atoms, order, goal.width, goal.height);
    LayoutKeeps(atoms, order, goal.width);
  }

  // ---------------------------------------------------------------- the packed search

  /** `grid.open.sort`: the anchors in increasing order of `Point#<=>`. */
  method SortPoints(s: set<Point>) returns (r: seq<Point>)
    ensures forall p :: p in r <==> p in s
    ensures forall i, j :: 0 <= i < j < |r| ==> Less(r[i], r[j])
  {
    r := [];
    var rest := s;
    while rest != {}
      invariant rest <= s
      invariant forall p :: p in r <==> p in s - rest
      invariant forall i, j :: 0 <= i < j < |r| ==> Less(r[i], r[j])
      invariant forall i, q :: 0 <= i < |r| && q in rest ==> Less(r[i], q)
      decreases |rest|
    {
      ghost var first := FirstExists(rest);
      var m :| m in rest && First(m, rest);
      forall q | q in rest - {m}
        ensures Less(m, q)
      {
        CompareOrder(m, q);
      }
      forall i | 0 <= i < |r|
        ensures Less(r[i], m)
      {
      }
      r := r + [m];
      rest := rest - {m};
    }
  }

  /** `atoms.sum {|a| a.points.size}`. */
  function Need(atoms: seq<Atom>): nat
  {
    if atoms == [] then 0 else Need(atoms[..|atoms| - 1]) + |atoms[|atoms| - 1].points|
  }

  /** The key `packed_recurse` remembers a failure under: the number of the
      next shape and the occupied cells. */
  datatype State = State(id: int, keys: set<Point>)

  /** r is reached from g by placing the shapes of `atoms`, last first,
      each as a member of its family at an anchor worth trying where it
      fits. */
  ghost predicate Packs(g: Grid, atoms: seq<Atom>, r: Grid)
    decreases |atoms|
  {
    if atoms == [] then r == g
    else
      var a := atoms[|atoms| - 1];
      exists p, f :: p in g.open && WorthTrying(g, p, a) && f in Family(a) &&
        Merge(g, f, p.x, p.y).Some? && Packs(Merge(g, f, p.x, p.y).value, atoms[..|atoms| - 1], r)
  }

  predicate AtomsInBox(atoms: seq<Atom>)
  {
    forall k :: 0 <= k < |atoms| ==> InBox(atoms[k].points)
  }

  lemma FamilyMember(a: Atom, f: Atom)
    requires f in Family(a)
    ensures f.id == a.id && |f.points| == |a.points|
    ensures InBox(a.points) ==> InBox(f.points)
  {
    FamilyElements(a);
    OrientationsKeep(a, f);
  }

  /** With a boxed shape at a worth-trying anchor, every new cell is a
      piece inside the region. */
  lemma PlaceInside(g: Grid, p: Point, f: Atom)
    requires 0 <= p.x <= g.width - 3 && 0 <= p.y <= g.height - 3
    requires InBox(f.points) && Merge(g, f, p.x, p.y).Some?
    ensures var n := Merge(g, f, p.x, p.y).value;
      forall c :: c in n.points && c !in g.points ==> 0 <= c.x < g.width && 0 <= c.y < g.height && n.points[c].Piece?
  {
    var n := Merge(g, f, p.x, p.y).value;
    var pl := Placement(f, p.x, p.y);
    assert n.points == g.points + pl;
    forall c | c in n.points && c !in g.points
      ensures 0 <= c.x < g.width && 0 <= c.y < g.height && n.points[c].Piece?
    {
      assert c in pl;
      PlacementSource(f, p.x, p.y, c);
    }
  }

  /** Placing one member of a's family at a worth-trying anchor: the size
      and old cells stay, the count grows by a's size and anchors are only
      dropped. */
  lemma PlaceFacts(g: Grid, a: Atom, p: Point, f: Atom)
    requires f in Family(a) && Merge(g, f, p.x, p.y).Some?
    ensures var n := Merge(g, f, p.x, p.y).value;
      n.width == g.width && n.height == g.height &&
      n.pointCount == g.pointCount + |a.points| && n.open <= g.open &&
      g.points.Keys <= n.points.Keys && (forall c :: c in g.points ==> n.points[c] == g.points[c])
  {
    MergeFacts(g, f, p.x, p.y);
    FamilyMember(a, f);
  }

  lemma InBoxInit(atoms: seq<Atom>)
    requires atoms != [] && AtomsInBox(atoms)
    ensures InBox(atoms[|atoms| - 1].points) && AtomsInBox(atoms[..|atoms| - 1])
  {
    var init := atoms[..|atoms| - 1];
    forall k | 0 <= k < |init|
      ensures InBox(init[k].points)
    {
      assert init[k] == atoms[k];
    }
  }

  /** A packing keeps the size and every old cell, counts every placed
      cell and only drops anchors. */
  lemma {:induction false} PacksFacts(g: Grid, atoms: seq<Atom>, r: Grid)
    requires Packs(g, atoms, r)
    ensures r.width == g.width && r.height == g.height
    ensures r.pointCount == g.pointCount + Need(atoms) && OpenSize(r) == OpenSize(g) - Need(atoms)
    ensures r.open <= g.open
    ensures g.points.Keys <= r.points.Keys && forall c :: c in g.points ==> r.points[c] == g.points[c]
    decreases |atoms|
  {
    if atoms != [] {
      var a := atoms[|atoms| - 1];
      var init := atoms[..|atoms| - 1];
      var p, f :| p in g.open && WorthTrying(g, p, a) && f in Family(a) &&
        Merge(g, f, p.x, p.y).Some? && Packs(Merge(g, f, p.x, p.y).value, init, r);
      var n := Merge(g, f, p.x, p.y).value;
      assert Need(atoms) == Need(init) + |a.points|;
      PlaceFacts(g, a, p, f);
      PacksFacts(n, init, r);
    }
  }

  /** With boxed shapes a packing writes pieces inside the region only. */
  lemma {:induction false} PacksInside(g: Grid, atoms: seq<Atom>, r: Grid)
    requires Packs(g, atoms, r) && AtomsInBox(atoms)
    ensures forall c :: c in r.points && c !in g.points ==>
      0 <= c.x < g.width && 0 <= c.y < g.height && r.points[c].Piece?
    decreases |atoms|
  {
    if atoms != [] {
      var a := atoms[|atoms| - 1];
      var init := atoms[..|atoms| - 1];
      var p, f :| p in g.open && WorthTrying(g, p, a) && f in Family(a) &&
        Merge(g, f, p.x, p.y).Some? && Packs(Merge(g, f, p.x, p.y).value, init, r);
      var n := Merge(g, f, p.x, p.y).value;
      InBoxInit(atoms);
      FamilyMember(a, f);
      PlaceInside(g, p, f);
      PlaceFacts(g, a, p, f);
      PacksInside(n, init, r);
      PacksFacts(n, init, r);
    }
  }

  /** A packing of boxed shapes into the empty grid of a goal: the walls
      stay, every other cell is a piece inside the region, and the cells
      counted are exactly the shapes' sizes. */
  lemma PackedFits(w: int, h: int, atoms: seq<Atom>, g: Grid)
    requires Packs(Fresh(w, h, map[]), atoms, g) && AtomsInBox(atoms)
    ensures g.width == w && g.height == h
    ensures g.pointCount == Need(atoms) && OpenSize(g) == w * h - Need(atoms)
    ensures forall p :: IsWall(w, h, p) ==> p in g.points && g.points[p] == Wall
    ensures forall c :: c in g.points && !IsWall(w, h, c) ==> 0 <= c.x < w && 0 <= c.y < h && g.points[c].Piece?
  {
    var e := Fresh(w, h, map[]);
    FreshShape(w, h, map[]);
    PacksFacts(e, atoms, g);
    PacksInside(e, atoms, g);
    forall c | c in g.points && !IsWall(w, h, c)
      ensures c !in e.points
    {
      WallsAre(w, h, c);
    }
  }

  /** The search state of `packed_recurse`: the shapes still to place (the
      array it pops from and pushes back onto) and the failures seen. */
  class Packer {
    var atoms: seq<Atom>
    var badstates: set<State>

    constructor(order: seq<Atom>)
      ensures atoms == order && badstates == {}
    {
      atoms := order;
      badstates := {};
    }

    /** `packed_recurse`: a grid packed with every remaining shape leaves
        none remaining; a failure leaves the shapes as they were and
        remembers its state. */
    method Recurse(grid: Grid) returns (r: Option<Grid>)
      modifies this
      decreases |atoms|
      ensures old(atoms) == [] ==> r == Some(grid)
      ensures old(atoms) != [] && Need(old(atoms)) > OpenSize(grid) ==> r == None
      ensures old(atoms) != [] && State(old(atoms)[|old(atoms)| - 1].id, grid.points.Keys) in old(badstates) ==> r == None
      ensures r.Some? ==> atoms == [] && Packs(grid, old(atoms), r.value)
      ensures r.None? ==> atoms == old(atoms)
      ensures old(badstates) <= badstates
      ensures r.None? && old(atoms) != [] && Need(old(atoms)) <= OpenSize(grid) ==>
        State(old(atoms)[|old(atoms)| - 1].id, grid.points.Keys) in badstates
    {
      if atoms == [] {
        return Some(grid);
      }
      if Need(atoms) > OpenSize(grid) {
        return None;
      }
      var state := State(atoms[|atoms| - 1].id, grid.points.Keys);
      if state in badstates {
        return None;
      }
      var a := atoms[|atoms| - 1];
      ghost var all := atoms;
      atoms := atoms[..|atoms| - 1];
      ghost var rest := atoms;
      var fam := ComputeFamily(a);
      var anchors := SortPoints(grid.open);
      for i := 0 to |anchors|
        invariant atoms == rest
        invariant old(badstates) <= badstates
      {
        var p := anchors[i];
        if WorthTrying(grid, p, a) {
          for j := 0 to |fam|
            invariant atoms == rest
            invariant old(badstates) <= badstates
          {
            var g := MergeWith(grid, fam[j], p.x, p.y);
            if g.Some? {
              var res := Recurse(g.value);
              if res.Some? {
                assert fam[j] in Family(a);
                assert all[..|all| - 1] == rest;
                return res;
              }
            }
          }
        }
      }
      atoms := atoms + [a];
      assert atoms == all;
      badstates := badstates + {state};
      return None;
    }
  }

  /** `expanded.map {|i| atoms[i]}`. */
  function Chosen(atoms: seq<Atom>, order: seq<int>): seq<Atom>
    requires InRange(order, |atoms|)
  {
    seq(|order|, k requires 0 <= k < |order| => atoms[order[k]])
  }

  lemma ChosenInBox(atoms: seq<Atom>, order: seq<int>)
    requires InRange(order, |atoms|) && AllInBox(atoms)
    ensures AtomsInBox(Chosen(atoms, order))
  {
  }

  /** `packed_solve` with the shuffled list given: a missing shape raises;
      otherwise the search from the empty grid, whose result is a packing
      of the chosen shapes. */
  method PackedSolve(goal: Goal, atoms: seq<Atom>, order: seq<int>) returns (r: Result<Option<Grid>>)
    requires multiset(order) == multiset(Expanded(goal.counts))
    ensures r.Err? <==> Missing(goal.counts, |atoms|)
    ensures r.Ok? ==> InRange(order, |atoms|)
    ensures r.Ok? && r.value.Some? ==>
      Packs(Fresh(goal.width, goal.height, map[]), Chosen(atoms, order), r.value.value)
    ensures r.Ok? && order == [] ==> r == Ok(Some(Fresh(goal.width, goal.height, map[])))
    ensures r.Ok? && order != [] && Need(Chosen(atoms, order)) > goal.width * goal.height ==> r == Ok(None)
  {
    OrderFacts(goal.counts, order, |atoms|);
    var empty := Build(goal.width, goal.height, map[], None);
    FreshShape(goal.width, goal.height, map[]);
    if exists k :: 0 <= k < |order| && order[k] >= |atoms| {
      return Err("NoMethodError");
    }
    var packer := new Packer(Chosen(atoms, order));
    var g := packer.Recurse(empty.value);
    r := Ok(g);
  }

  /** The goal wants no more shapes than there are whole 3x3 blocks. */
  predicate Trivial(g: Goal)
  {
    SizesSum(g.counts) <= (g.width / 3) * (g.height / 3)
  }

  /** Lines 31-33 of `part1` for one goal: the trivial layout, else the
      search. A goal the trivial layout covers is solved. */
  method SolveGoal(goal: Goal, atoms: seq<Atom>, first: seq<int>, second: seq<int>) returns (r: Result<Option<Grid>>)
    requires multiset(first) == multiset(Expanded(goal.counts))
    requires multiset(second) == multiset(Expanded(goal.counts))
    ensures r.Err? <==> Missing(goal.counts, |atoms|)
    ensures r.Ok? && Trivial(goal) ==> (InRange(first, |atoms|) &&
      r.value == Some(Fresh(goal.width, goal.height, Layout(atoms, first, goal.width))))
    ensures r.Ok? && r.value.Some? && !Trivial(goal) ==> (InRange(second, |atoms|) &&
      Packs(Fresh(goal.width, goal.height, map[]), Chosen(atoms, second), r.value.value))
  {
    r := TrivialSolve(goal, atoms, first);
    if r == Ok(None) {
      r := PackedSolve(goal, atoms, second);
    }
  }

  lemma CountStep(goals: seq<Goal>, i: nat)
    requires i < |goals|
    ensures CountWhere(goals[..i + 1], Trivial) == CountWhere(goals[..i], Trivial) + if Trivial(goals[i]) then 1 else 0
  {
    assert goals[..i + 1][..i] == goals[..i];
  }

  /** Some goal of `goals` wants a shape missing from the input. */
  predicate AnyMissing(goals: seq<Goal>, n: int)
  {
    exists k :: 0 <= k < |goals| && Missing(goals[k].counts, n)
  }

  lemma AnyMissingStep(goals: seq<Goal>, i: nat, n: int)
    requires i < |goals|
    ensures AnyMissing(goals[..i + 1], n) <==> AnyMissing(goals[..i], n) || Missing(goals[i].counts, n)
  {
    var before, after := goals[..i], goals[..i + 1];
    assert forall k :: 0 <= k < i ==> after[k] == before[k];
    if AnyMissing(after, n) && !Missing(goals[i].counts, n) {
      var k :| 0 <= k < i + 1 && Missing(after[k].counts, n);
      assert k < i;
    }
    if Missing(goals[i].counts, n) {
      assert after[i] == goals[i];
    }
  }

  lemma AnyMissingPrefix(goals: seq<Goal>, i: nat, n: int)
    requires i <= |goals| && AnyMissing(goals[..i], n)
    ensures AnyMissing(goals, n)
  {
    var k :| 0 <= k < i && Missing(goals[..i][k].counts, n);
    assert goals[k] == goals[..i][k];
  }

  /** `part1`: the number of goals solved, at least every goal the trivial
      layout covers; a parse error or a goal wanting a missing shape
      raises. `shuffle(2 * i, s)` stands for the shuffle of `trivial_solve`
      and `shuffle(2 * i + 1, s)` for that of `packed_solve` on goal i.
      Ruby shuffles once per goal: `trivial_solve` either returns nil
      before its shuffle or returns a grid, so only one of the two orders
      is ever used. */
  method Part1(lines: seq<string>, shuffle: (nat, seq<int>) -> seq<int>) returns (r: Result<nat>)
    requires forall n, s :: multiset(shuffle(n, s)) == multiset(s)
    ensures ParseInput(lines).Err? ==> r == Err(ParseInput(lines).msg)
    ensures ParseInput(lines).Ok? ==> var puzzle := ParseInput(lines).value;
      (r.Err? <==> AnyMissing(puzzle.goals, |puzzle.atoms|)) &&
      (r.Ok? ==> CountWhere(puzzle.goals, Trivial) <= r.value <= |puzzle.goals|)
  {
    var parsed := ParseInput(lines);
    if parsed.Err? {
      return Err(parsed.msg);
    }
    var atoms := parsed.value.atoms;
    var goals := parsed.value.goals;
    var count := 0;
    for i := 0 to |goals|
      invariant !AnyMissing(goals[..i], |atoms|)
      invariant CountWhere(goals[..i], Trivial) <= count <= i
    {
      var goal := goals[i];
      var e := Expanded(goal.counts);
      var res := SolveGoal(goal, atoms, shuffle(2 * i, e), shuffle(2 * i + 1, e));
      AnyMissingStep(goals, i, |atoms|);
      CountStep(goals, i);
      if res.Err? {
        assert AnyMissing(goals[..i + 1], |atoms|);
        AnyMissingPrefix(goals, i + 1, |atoms|);
        return Err(res.msg);
      }
      if res.value.Some? {
        count := count + 1;
      }
    }
    assert goals[..|goals|] == goals;
    r := Ok(count);
  }

  /** Part 2 has no puzzle: the answer is a greeting. */
  function Part2(lines: seq<string>): string
  {
    "Merry Christmas!"
  }
}
