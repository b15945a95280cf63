/** 2020 day 3: count trees ('#') met on straight slopes through a map that
    repeats to the right. */
module Y2020Dec03 {
  import opened Common

  datatype Slope = Slope(right: nat, down: nat)

  /** The five slopes of Part2, in the source's order. */
  const Slopes: seq<Slope> := [Slope(1, 1), Slope(3, 1), Slope(5, 1), Slope(7, 1), Slope(1, 2)]

  /** Kotlin's `%` throws on an empty row; every row must be non-empty. */
  predicate NoEmptyRow(rows: seq<string>)
  {
    forall r :: 0 <= r < |rows| ==> |rows[r]| > 0
  }

  /** Does row r count as an obstacle on the slope? Column
      (r / down) * right, taken modulo the row length. */
  predicate Hit(rows: seq<string>, r: nat, s: Slope)
    requires r < |rows|
  {
    s.down > 0 && r % s.down == 0 && |rows[r]| > 0 &&
    rows[r][(r / s.down * s.right) % |rows[r]|] == '#'
  }

  /** Number of rows hit on slope s. */
  function SlopeCount(rows: seq<string>, s: Slope): nat
  {
    if rows == [] then 0
    else SlopeCount(rows[..|rows| - 1], s) + (if Hit(rows, |rows| - 1, s) then 1 else 0)
  }

  /** Part1's own count: rows whose character at 3r mod length is '#'. */
  function Part1Count(rows: seq<string>): nat
  {
    if rows == [] then 0
    else
      var r := |rows| - 1;
      Part1Count(rows[..r]) + (if |rows[r]| > 0 && rows[r][3 * r % |rows[r]|] == '#' then 1 else 0)
  }

  /** Part1: fails on an empty row (division by zero), else the count. */
  function Part1(rows: seq<string>): (r: Result<nat>)
    ensures r.Ok? <==> NoEmptyRow(rows)
    ensures r.Ok? ==> r.value <= |rows|
  {
    if !NoEmptyRow(rows) then Err("division by zero")
    else
      Part1CountBound(rows);
      Ok(Part1Count(rows))
  }

  lemma {:induction false} Part1CountBound(rows: seq<string>)
    ensures Part1Count(rows) <= |rows|
  {
    if rows != [] {
      Part1CountBound(rows[..|rows| - 1]);
    }
  }

  /** Part1 is Part2's second slope, right 3 and down 1. */
  lemma {:induction false} Part1IsSlopeThreeOne(rows: seq<string>)
    ensures Part1Count(rows) == SlopeCount(rows, Slope(3, 1))
  {
    if rows != [] {
      var r := |rows| - 1;
      Part1IsSlopeThreeOne(rows[..r]);
      assert rows[..r] == rows[..|rows| - 1];
      assert r / 1 * 3 == 3 * r;
    }
  }

  /** A slope's count never decreases as rows are added: `obstacles` only
      ever increments. */
  lemma {:induction false} SlopeCountMonotone(rows: seq<string>, n: nat, s: Slope)
    requires n <= |rows|
    ensures SlopeCount(rows[..n], s) <= SlopeCount(rows, s)
  {
    if n < |rows| {
      assert rows[..|rows| - 1][..n] == rows[..n];
      SlopeCountMonotone(rows[..|rows| - 1], n, s);
    } else {
      assert rows[..n] == rows;
    }
  }

  lemma SlopeCountStep(rows: seq<string>, line: nat, s: Slope)
    requires line < |rows|
    ensures SlopeCount(rows[..line + 1], s) ==
      SlopeCount(rows[..line], s) + (if Hit(rows, line, s) then 1 else 0)
  {
    assert rows[..line + 1][..line] == rows[..line];
  }

  /** The product of the slope counts, over the first k slopes. */
  function CountsProduct(rows: seq<string>, k: nat): int
    requires k <= |Slopes|
  {
    if k == 0 then 1 else CountsProduct(rows, k - 1) * SlopeCount(rows, Slopes[k - 1])
  }

  /** The inner `slopes.forEach` of Part2 for one row. */
  method CountRow(rows: seq<string>, line: nat, obstacles: array<nat>)
    requires line < |rows| && obstacles.Length == 5
    requires forall k :: 0 <= k < 5 ==> obstacles[k] == SlopeCount(rows[..line], Slopes[k])
    modifies obstacles
    ensures forall k :: 0 <= k < 5 ==> obstacles[k] == SlopeCount(rows[..line + 1], Slopes[k])
    ensures forall k :: 0 <= k < 5 ==> old(obstacles[k]) <= obstacles[k]
  {
    var k := 0;
    while k < 5
      invariant 0 <= k <= 5
      invariant forall j :: 0 <= j < k ==> obstacles[j] == SlopeCount(rows[..line + 1], Slopes[j])
      invariant forall j :: k <= j < 5 ==> obstacles[j] == SlopeCount(rows[..line], Slopes[j])
      invariant forall j :: 0 <= j < 5 ==> old(obstacles[j]) <= obstacles[j]
    {
      SlopeCountStep(rows, line, Slopes[k]);
      if Hit(rows, line, Slopes[k]) {
        obstacles[k] := obstacles[k] + 1;
      }
      k := k + 1;
    }
  }

  /** Part2: one counter per slope (the source's mutable `Slope.obstacles`),
      incremented row by row; the answer is their product. */
  method Part2(rows: seq<string>) returns (r: Result<int>)
    ensures r.Ok? <==> NoEmptyRow(rows)
    ensures r.Ok? ==> r.value == CountsProduct(rows, 5)
  {
    var obstacles := new nat[5](_ => 0);
    var line := 0;
    while line < |rows|
      invariant 0 <= line <= |rows|
      invariant NoEmptyRow(rows[..line])
      invariant forall k :: 0 <= k < 5 ==> obstacles[k] == SlopeCount(rows[..line], Slopes[k])
    {
      if |rows[line]| == 0 {
        assert !NoEmptyRow(rows);
        return Err("division by zero");
      }
      CountRow(rows, line, obstacles);
      line := line + 1;
    }
    assert rows[..line] == rows;
    var product := MultiplyCounts(rows, obstacles);
    r := Ok(product);
  }

  /** The final `fold` multiplying the five counts. */
  method MultiplyCounts(rows: seq<string>, obstacles: array<nat>) returns (product: int)
    requires obstacles.Length == 5 && NoEmptyRow(rows)
    requires forall k :: 0 <= k < 5 ==> obstacles[k] == SlopeCount(rows, Slopes[k])
    ensures product == CountsProduct(rows, 5)
  {
    product := 1;
    var k := 0;
    while k < 5
      invariant 0 <= k <= 5
      invariant product == CountsProduct(rows, k)
    {
      product := product * obstacles[k];
      k := k + 1;
    }
  }
}
