/** 2020 day 17: Conway cubes in d dimensions. A cube is its list of
    coordinates; a state is the set of active cubes. */
module Y2020Day17 {
  import opened Common
  import opened Modular

  type Cube = seq<int>

  // ---------------------------------------------------------------------
  // Neighbours

  /** The generator `recurse(prefix)` of `neighbors`: every way to extend
      prefix by coordinates each within one of the cube's, in the order
      -1, 0, +1 per position, leaving out the cube itself. */
  function Recurse(c: Cube, prefix: seq<int>): seq<Cube>
    requires |prefix| <= |c|
    decreases |c| - |prefix|
  {
    var p := |prefix|;
    if p == |c| then (if prefix != c then [prefix] else [])
    else Recurse(c, prefix + [c[p] - 1]) + Recurse(c, prefix + [c[p]]) + Recurse(c, prefix + [c[p] + 1])
  }

  function Neighbors(c: Cube): seq<Cube>
  {
    Recurse(c, [])
  }

  /** The cubes that extend prefix, each later coordinate within one of
      the cube's. */
  ghost predicate InBox(c: Cube, prefix: seq<int>, x: Cube)
    requires |prefix| <= |c|
  {
    |x| == |c| && x[..|prefix|] == prefix && forall i :: |prefix| <= i < |c| ==> c[i] - 1 <= x[i] <= c[i] + 1
  }

  /** Two cubes are adjacent when they differ, have the same dimension,
      and every coordinate differs by at most one. */
  predicate Adjacent(a: Cube, b: Cube)
  {
    |a| == |b| && a != b && forall i :: 0 <= i < |a| ==> -1 <= a[i] - b[i] <= 1
  }

  lemma {:induction false} RecurseMembers(c: Cube, prefix: seq<int>)
    requires |prefix| <= |c|
    ensures forall x :: x in Recurse(c, prefix) <==> InBox(c, prefix, x) && x != c
    decreases |c| - |prefix|
  {
    var p := |prefix|;
    if p == |c| {
      forall x ensures InBox(c, prefix, x) <==> x == prefix {
        if |x| == |c| { assert x[..p] == x; }
      }
    } else {
      var lo, mid, hi := prefix + [c[p] - 1], prefix + [c[p]], prefix + [c[p] + 1];
      RecurseMembers(c, lo);
      RecurseMembers(c, mid);
      RecurseMembers(c, hi);
      forall x ensures InBox(c, prefix, x) <==> InBox(c, lo, x) || InBox(c, mid, x) || InBox(c, hi, x) {
        if |x| == |c| {
          assert x[..p + 1] == x[..p] + [x[p]];
        }
      }
    }
  }

  /** The neighbours are exactly the adjacent cubes. */
  lemma NeighborsMeaning(c: Cube)
    ensures forall x :: x in Neighbors(c) <==> Adjacent(c, x)
  {
    RecurseMembers(c, []);
    forall x ensures InBox(c, [], x) && x != c <==> Adjacent(c, x) {
      if |x| == |c| {
        assert x[..0] == [];
      }
    }
  }

  lemma {:induction false} RecurseLength(c: Cube, prefix: seq<int>)
    requires |prefix| <= |c|
    ensures |Recurse(c, prefix)| == Pow(3, |c| - |prefix|) - (if prefix == c[..|prefix|] then 1 else 0)
    decreases |c| - |prefix|
  {
    var p := |prefix|;
    if p == |c| {
      assert c[..p] == c;
    } else {
      var lo, mid, hi := prefix + [c[p] - 1], prefix + [c[p]], prefix + [c[p] + 1];
      RecurseLength(c, lo);
      RecurseLength(c, mid);
      RecurseLength(c, hi);
      assert c[..p + 1] == c[..p] + [c[p]];
      assert lo != c[..p + 1] && hi != c[..p + 1] by {
        assert lo[p] != c[p] && hi[p] != c[p];
      }
      assert mid == c[..p + 1] <==> prefix == c[..p];
    }
  }

  /** d dimensions give 3^d - 1 neighbours. */
  lemma NeighborsCount(c: Cube)
    ensures |Neighbors(c)| == Pow(3, |c|) - 1
  {
    RecurseLength(c, []);
    assert c[..0] == [];
  }

  lemma {:induction false} RecurseDistinct(c: Cube, prefix: seq<int>)
    requires |prefix| <= |c|
    ensures Distinct(Recurse(c, prefix))
    decreases |c| - |prefix|
  {
    var p := |prefix|;
    if p < |c| {
      var lo, mid, hi := prefix + [c[p] - 1], prefix + [c[p]], prefix + [c[p] + 1];
      RecurseDistinct(c, lo);
      RecurseDistinct(c, mid);
      RecurseDistinct(c, hi);
      RecurseMembers(c, lo);
      RecurseMembers(c, mid);
      RecurseMembers(c, hi);
      var a, b, d := Recurse(c, lo), Recurse(c, mid), Recurse(c, hi);
      forall x | x in a ensures x[p] == c[p] - 1 { assert x[..p + 1][p] == x[p]; }
      forall x | x in b ensures x[p] == c[p] { assert x[..p + 1][p] == x[p]; }
      forall x | x in d ensures x[p] == c[p] + 1 { assert x[..p + 1][p] == x[p]; }
      DistinctConcat(a, b);
      DistinctConcat(a + b, d);
    }
  }

  predicate Distinct<T(==)>(s: seq<T>)
  {
    forall i, j :: 0 <= i < j < |s| ==> s[i] != s[j]
  }

  lemma DistinctConcat<T>(a: seq<T>, b: seq<T>)
    requires Distinct(a) && Distinct(b) && forall x :: x in a ==> x !in b
    ensures Distinct(a + b)
  {
    var s := a + b;
    forall i, j | 0 <= i < j < |s| ensures s[i] != s[j] {
      if i < |a| && j >= |a| {
        assert s[i] in a && s[j] == b[j - |a|];
      } else if i >= |a| {
        assert s[i] == b[i - |a|] && s[j] == b[j - |a|];
      }
    }
  }

  /** `neighbors` yields no cube twice. */
  lemma NeighborsDistinct(c: Cube)
    ensures Distinct(Neighbors(c))
  {
    RecurseDistinct(c, []);
  }

  // ---------------------------------------------------------------------
  // One round

  /** How often c occurs in `flatMap(neighbors)` over the active cubes:
      each cube's neighbour list holds c at most once, so the count is the
      number of active cubes listing c. */
  function Count(active: set<Cube>, c: Cube): nat
  {
    |set a | a in active && c in Neighbors(a)|
  }

  /** The `groupingBy { it }.eachCount().filter { … }.keys` of a round. */
  function Step(active: set<Cube>): set<Cube>
  {
    set a, c | a in active && c in Neighbors(a) && (Count(active, c) == 3 || (Count(active, c) == 2 && c in active)) :: c
  }

  /** The count is the number of active cubes adjacent to c. */
  lemma CountMeaning(active: set<Cube>, c: Cube)
    ensures Count(active, c) == |set a | a in active && Adjacent(a, c)|
  {
    forall a | a in active ensures c in Neighbors(a) <==> Adjacent(a, c) {
      NeighborsMeaning(a);
      assert Adjacent(a, c) <==> Adjacent(c, a);
    }
    assert (set a | a in active && c in Neighbors(a)) == (set a | a in active && Adjacent(a, c));
  }

  lemma Witness(active: set<Cube>, c: Cube)
    requires Count(active, c) > 0
    ensures exists a :: a in active && c in Neighbors(a)
  {
    var s := set a | a in active && c in Neighbors(a);
    assert s != {};
    var a :| a in s;
  }

  /** The rule: a cube is active next round iff 3 active cubes are adjacent
      to it, or 2 are and it is active now. */
  lemma StepRule(active: set<Cube>, c: Cube)
    ensures c in Step(active) <==> Count(active, c) == 3 || (Count(active, c) == 2 && c in active)
  {
    if Count(active, c) == 3 || (Count(active, c) == 2 && c in active) {
      Witness(active, c);
    }
  }

  /** A cube with no active neighbour is inactive after a round. */
  lemma Isolated(active: set<Cube>, c: Cube)
    requires forall a :: a in active ==> !Adjacent(a, c)
    ensures c !in Step(active)
  {
    CountMeaning(active, c);
    assert (set a | a in active && Adjacent(a, c)) == {};
    StepRule(active, c);
  }

  function Iterate(active: set<Cube>, n: nat): set<Cube>
    decreases n
  {
    if n == 0 then active else Iterate(Step(active), n - 1)
  }

  // ---------------------------------------------------------------------
  // The initial state and `countActiveAfter`

  function Zeros(n: nat): (z: seq<int>)
    ensures |z| == n && forall i :: 0 <= i < n ==> z[i] == 0
  {
    seq(n, _ => 0)
  }

  predicate HasActive(lines: seq<string>)
  {
    exists x, y :: 0 <= x < |lines| && 0 <= y < |lines[x]| && lines[x][y] == '#'
  }

  /** The '#' cells at (row, column), padded with zeros to d coordinates. */
  function InitialCubes(lines: seq<string>, d: nat): set<Cube>
    requires d >= 2
  {
    set x, y | 0 <= x < |lines| && 0 <= y < |lines[x]| && lines[x][y] == '#' :: [x, y] + Zeros(d - 2)
  }

  /** `Array(dimensions - 2)` throws for fewer than two dimensions, but it
      is only built for a '#' cell. */
  function Initial(lines: seq<string>, d: int): Result<set<Cube>>
  {
    if d < 2 then (if HasActive(lines) then Err("NegativeArraySizeException") else Ok({}))
    else Ok(InitialCubes(lines, d))
  }

  /** `countActiveAfter`: `repeat(rounds)` runs no round for a negative
      count. */
  method CountActiveAfter(rounds: int, d: int, lines: seq<string>) returns (r: Result<nat>)
    ensures r.Err? <==> Initial(lines, d).Err?
    ensures r.Ok? ==> r.value == |Iterate(Initial(lines, d).value, if rounds < 0 then 0 else rounds)|
  {
    var init := Initial(lines, d);
    if init.Err? {
      return Err(init.msg);
    }
    var prevActive := init.value;
    var n: nat := if rounds < 0 then 0 else rounds;
    var k := 0;
    while k < n
      invariant 0 <= k <= n
      invariant Iterate(init.value, n) == Iterate(prevActive, n - k)
    {
      prevActive := Step(prevActive);
      k := k + 1;
    }
    r := Ok(|prevActive|);
  }

  function CountChar(line: string, ch: char): nat
  {
    if line == [] then 0 else CountChar(line[..|line| - 1], ch) + (if line[|line| - 1] == ch then 1 else 0)
  }

  function HashCount(lines: seq<string>): nat
  {
    if lines == [] then 0 else HashCount(lines[..|lines| - 1]) + CountChar(lines[|lines| - 1], '#')
  }

  function RowCubes(x: int, line: string, d: nat): set<Cube>
    requires d >= 2
  {
    set y | 0 <= y < |line| && line[y] == '#' :: [x, y] + Zeros(d - 2)
  }

  lemma RowSplit(x: int, line: string, d: nat)
    requires d >= 2 && line != []
    ensures var m := |line| - 1;
      RowCubes(x, line, d) == RowCubes(x, line[..m], d) + (if line[m] == '#' then {[x, m] + Zeros(d - 2)} else {})
  {
    var m, init, z := |line| - 1, line[..|line| - 1], Zeros(d - 2);
    forall c | c in RowCubes(x, line, d) ensures c in RowCubes(x, init, d) + (if line[m] == '#' then {[x, m] + z} else {}) {
      var y :| 0 <= y < |line| && line[y] == '#' && c == [x, y] + z;
      if y < m { assert init[y] == line[y]; }
    }
    forall c | c in RowCubes(x, init, d) ensures c in RowCubes(x, line, d) {
      var y :| 0 <= y < |init| && init[y] == '#' && c == [x, y] + z;
      assert line[y] == init[y];
    }
  }

  lemma RowColumns(x: int, line: string, d: nat)
    requires d >= 2
    ensures forall c :: c in RowCubes(x, line, d) ==> |c| == d && c[0] == x && 0 <= c[1] < |line|
  {
  }

  lemma {:induction false} RowCount(x: int, line: string, d: nat)
    requires d >= 2
    ensures |RowCubes(x, line, d)| == CountChar(line, '#')
    decreases |line|
  {
    if line != [] {
      var m := |line| - 1;
      RowCount(x, line[..m], d);
      RowSplit(x, line, d);
      RowColumns(x, line[..m], d);
      var last: Cube := [x, m] + Zeros(d - 2);
      assert last[1] == m;
      assert last !in RowCubes(x, line[..m], d);
    }
  }

  lemma InitialSplit(lines: seq<string>, d: nat)
    requires d >= 2 && lines != []
    ensures var n := |lines| - 1;
      InitialCubes(lines, d) == InitialCubes(lines[..n], d) + RowCubes(n, lines[n], d)
  {
    var n, init, z := |lines| - 1, lines[..|lines| - 1], Zeros(d - 2);
    forall c | c in InitialCubes(lines, d) ensures c in InitialCubes(init, d) + RowCubes(n, lines[n], d) {
      var x, y :| 0 <= x < |lines| && 0 <= y < |lines[x]| && lines[x][y] == '#' && c == [x, y] + z;
      if x < n { assert init[x] == lines[x]; }
    }
    forall c | c in InitialCubes(init, d) ensures c in InitialCubes(lines, d) {
      var x, y :| 0 <= x < |init| && 0 <= y < |init[x]| && init[x][y] == '#' && c == [x, y] + z;
      assert lines[x] == init[x];
    }
  }

  lemma InitialRows(lines: seq<string>, d: nat)
    requires d >= 2
    ensures forall c :: c in InitialCubes(lines, d) ==> |c| == d && 0 <= c[0] < |lines|
  {
  }

  /** Before any round the active cubes are the '#' cells, one each. */
  lemma {:induction false} InitialCount(lines: seq<string>, d: nat)
    requires d >= 2
    ensures |InitialCubes(lines, d)| == HashCount(lines)
    decreases |lines|
  {
    if lines != [] {
      var n := |lines| - 1;
      InitialCount(lines[..n], d);
      RowCount(n, lines[n], d);
      InitialSplit(lines, d);
      InitialRows(lines[..n], d);
      RowColumns(n, lines[n], d);
      assert InitialCubes(lines[..n], d) !! RowCubes(n, lines[n], d);
    }
  }

  /** `countActiveAfter(0, d, s)` is the number of '#' cells. */
  lemma NoRounds(lines: seq<string>, d: int)
    requires d >= 2
    ensures Initial(lines, d).Ok? && |Iterate(Initial(lines, d).value, 0)| == HashCount(lines)
  {
    InitialCount(lines, d);
  }

  /** Part 1: six rounds in three dimensions; Part 2: six in four. */
  method Part1(lines: seq<string>) returns (r: nat)
    ensures r == |Iterate(InitialCubes(lines, 3), 6)|
  {
    var res := CountActiveAfter(6, 3, lines);
    r := res.value;
  }

  method Part2(lines: seq<string>) returns (r: nat)
    ensures r == |Iterate(InitialCubes(lines, 4), 6)|
  {
    var res := CountActiveAfter(6, 4, lines);
    r := res.value;
  }
}
