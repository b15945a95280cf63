/** 2020 day 10: a chain of joltage adapters, each 1, 2 or 3 above the
    previous, starting from the outlet at 0. */
module Y2020Dec10 {
  import opened Common

  /** The gaps walked by Part1: each sorted value minus the previous one,
      the first minus the outlet's 0. */
  function Gaps(s: seq<int>): (g: seq<int>)
    ensures |g| == |s|
  {
    seq(|s|, k requires 0 <= k < |s| => s[k] - (if k == 0 then 0 else s[k - 1]))
  }

  predicate IsOne(x: int) { x == 1 }
  predicate IsThree(x: int) { x == 3 }

  /** Every gap is one the `when` accepts. */
  predicate GapsOk(s: seq<int>)
  {
    forall k :: 0 <= k < |s| ==> 1 <= Gaps(s)[k] <= 3
  }

  /** ones × (threes + 1): the device adds one final 3-gap. */
  function Part1Value(s: seq<int>): int
  {
    CountWhere(Gaps(s), IsOne) * (CountWhere(Gaps(s), IsThree) + 1)
  }

  lemma GapsPrefix(s: seq<int>, i: nat)
    requires i < |s|
    ensures Gaps(s)[..i + 1] == Gaps(s)[..i] + [s[i] - (if i == 0 then 0 else s[i - 1])]
  {
  }

  /** Part1: sort, then walk the gaps counting ones and threes; any gap
      outside 1..3 throws. */
  method Part1(input: seq<int>) returns (r: Result<int>)
    ensures r.Ok? <==> GapsOk(SortInts(input))
    ensures r.Ok? ==> r.value == Part1Value(SortInts(input))
  {
    var list := SortInts(input);
    r := CountGaps(list);
  }

  /** The walk over the sorted list: ones and threes counted, any other
      gap rejected. */
  method CountGaps(list: seq<int>) returns (r: Result<int>)
    ensures r.Ok? <==> GapsOk(list)
    ensures r.Ok? ==> r.value == Part1Value(list)
  {
    var ones := 0;
    var threes := 0;
    var prev := 0;
    var i := 0;
    while i < |list|
      invariant 0 <= i <= |list|
      invariant prev == if i == 0 then 0 else list[i - 1]
      invariant forall k :: 0 <= k < i ==> 1 <= Gaps(list)[k] <= 3
      invariant ones == CountWhere(Gaps(list)[..i], IsOne)
      invariant threes == CountWhere(Gaps(list)[..i], IsThree)
    {
      var joltage := list[i];
      GapsPrefix(list, i);
      var delta := joltage - prev;
      assert delta == Gaps(list)[i];
      if delta == 1 {
        ones := ones + 1;
      } else if delta == 2 {
      } else if delta == 3 {
        threes := threes + 1;
      } else {
        return Err("Joltage delta not in 1-3");
      }
      prev := joltage;
      i := i + 1;
    }
    assert Gaps(list)[..i] == Gaps(list);
    threes := threes + 1;
    r := Ok(ones * threes);
  }

  /** The gaps telescope: they add up to the highest adapter. */
  lemma {:induction false} GapsSum(s: seq<int>)
    requires s != []
    ensures Sum(Gaps(s)) == s[|s| - 1]
  {
    if |s| == 1 {
      assert Gaps(s) == [s[0]];
    } else {
      var init := s[..|s| - 1];
      GapsSum(init);
      assert Gaps(s) == Gaps(init) + [s[|s| - 1] - s[|s| - 2]];
      SumAppend(Gaps(init), [s[|s| - 1] - s[|s| - 2]]);
    }
  }

  lemma {:induction false} SumBounds(g: seq<int>)
    requires forall k :: 0 <= k < |g| ==> 1 <= g[k] <= 3
    ensures |g| <= Sum(g) <= 3 * |g|
  {
    if g != [] {
      SumBounds(g[..|g| - 1]);
    }
  }

  /** When Part1 accepts the adapters, they go strictly up from the outlet,
      and the highest lies between one and three volts per adapter. */
  lemma AcceptedChain(s: seq<int>)
    requires s != [] && GapsOk(s)
    ensures forall i, j :: 0 <= i < j < |s| ==> 0 < s[i] < s[j]
    ensures |s| <= s[|s| - 1] <= 3 * |s|
  {
    GapsSum(s);
    SumBounds(Gaps(s));
    forall i, j | 0 <= i < j < |s| ensures 0 < s[i] < s[j] {
      Ascending(s, i, j);
    }
  }

  lemma {:induction false} PositiveValue(s: seq<int>, k: nat)
    requires k < |s| && GapsOk(s)
    ensures s[k] > 0
  {
    assert Gaps(s)[k] == s[k] - (if k == 0 then 0 else s[k - 1]);
    if k > 0 {
      PositiveValue(s, k - 1);
    }
  }

  lemma {:induction false} Ascending(s: seq<int>, i: nat, j: nat)
    requires i < j < |s| && GapsOk(s)
    ensures 0 < s[i] < s[j]
    decreases j - i
  {
    PositiveValue(s, i);
    assert Gaps(s)[j] == s[j] - s[j - 1];
    if i + 1 < j {
      Ascending(s, i, j - 1);
    }
  }

  // ---------------------------------------------------------------------
  // Part2

  function Term(m: map<int, int>, x: int): int
  {
    if x in m then m[x] else 0
  }

  /** The inner loop's total: the path counts recorded for lo..hi-1. */
  function WaysBetween(m: map<int, int>, lo: int, hi: int): int
    decreases hi - lo
  {
    if hi <= lo then 0 else WaysBetween(m, lo, hi - 1) + Term(m, hi - 1)
  }

  /** The `paths` map after the first n sorted values. */
  function PathsAfter(s: seq<int>, n: nat): map<int, int>
    requires n <= |s|
  {
    if n == 0 then map[0 := 1]
    else
      var m := PathsAfter(s, n - 1);
      m[s[n - 1] := WaysBetween(m, s[n - 1] - 3, s[n - 1])]
  }

  /** Part2: `paths[list.last()]`, where `last()` throws on an empty list. */
  method Part2(input: seq<int>) returns (r: Result<int>)
    ensures input == [] ==> r.Err?
    ensures input != [] ==> r == Ok(PathsAfter(SortInts(input), |input|)[SortInts(input)[|input| - 1]])
  {
    var list := SortInts(input);
    var paths := map[0 := 1];
    var n := 0;
    while n < |list|
      invariant 0 <= n <= |list|
      invariant paths == PathsAfter(list, n)
    {
      var joltage := list[n];
      var ways := 0;
      var i := joltage - 3;
      while i <= joltage - 1
        invariant joltage - 3 <= i <= joltage
        invariant ways == WaysBetween(paths, joltage - 3, i)
      {
        if i in paths {
          ways := ways + paths[i];
        }
        i := i + 1;
      }
      paths := paths[joltage := ways];
      n := n + 1;
    }
    if list == [] {
      return Err("List is empty.");
    }
    r := Ok(paths[list[|list| - 1]]);
  }

  /** The reference count: the ways to climb from the outlet at 0 to j in
      steps of 1, 2 or 3, every intermediate stop being an adapter of S. */
  function Paths(S: set<int>, j: int): nat
    decreases if j < 0 then 0 else j
  {
    if j < 0 then 0
    else if j == 0 then 1
    else
      (if j - 1 == 0 || j - 1 in S then Paths(S, j - 1) else 0) +
      (if j - 2 == 0 || j - 2 in S then Paths(S, j - 2) else 0) +
      (if j - 3 == 0 || j - 3 in S then Paths(S, j - 3) else 0)
  }

  predicate StrictlyPositiveAscending(s: seq<int>)
  {
    (forall k :: 0 <= k < |s| ==> s[k] > 0) && forall i, j :: 0 <= i < j < |s| ==> s[i] < s[j]
  }

  function Elems(s: seq<int>): set<int> { set x | x in s }

  /** What `PathsAfter` records after n values: exactly 0 and the first n
      values, 0 with one path and each value with its reference count. */
  ghost predicate Recorded(s: seq<int>, n: nat, m: map<int, int>)
    requires n <= |s|
  {
    KeysAre(s, n, m) && m[0] == 1 && CountsAre(s, n, m)
  }

  ghost predicate KeysAre(s: seq<int>, n: nat, m: map<int, int>)
    requires n <= |s|
  {
    forall x :: x in m <==> x == 0 || x in s[..n]
  }

  ghost predicate CountsAre(s: seq<int>, n: nat, m: map<int, int>)
    requires n <= |s|
  {
    forall k :: 0 <= k < n ==> s[k] in m && m[s[k]] == Paths(Elems(s), s[k])
  }

  lemma KeysStep(s: seq<int>, n: nat, m: map<int, int>, w: int)
    requires n < |s| && KeysAre(s, n, m)
    ensures KeysAre(s, n + 1, m[s[n] := w])
  {
    var m' := m[s[n] := w];
    assert s[..n + 1] == s[..n] + [s[n]];
    forall x ensures x in m' <==> x == 0 || x in s[..n + 1] {
      assert x in s[..n + 1] <==> x in s[..n] || x == s[n];
    }
  }

  lemma CountsStep(s: seq<int>, n: nat, m: map<int, int>)
    requires n < |s| && StrictlyPositiveAscending(s) && CountsAre(s, n, m)
    ensures CountsAre(s, n + 1, m[s[n] := Paths(Elems(s), s[n])])
  {
    var m' := m[s[n] := Paths(Elems(s), s[n])];
    forall k | 0 <= k < n + 1 ensures s[k] in m' && m'[s[k]] == Paths(Elems(s), s[k]) {
      if k < n {
        assert s[k] < s[n] && m'[s[k]] == m[s[k]];
      }
    }
  }

  lemma StepTerm(s: seq<int>, n: nat, m: map<int, int>, x: int)
    requires n < |s| && StrictlyPositiveAscending(s) && Recorded(s, n, m)
    requires s[n] - 3 <= x < s[n]
    ensures Term(m, x) == if x == 0 || x in Elems(s) then Paths(Elems(s), x) else 0
  {
    if x in Elems(s) {
      var k :| 0 <= k < |s| && s[k] == x;
      assert k < n;
      assert x in s[..n] by { assert s[..n][k] == x; }
    } else if x != 0 {
      assert x !in s[..n];
    }
  }

  /** The inner loop's total for the next value is its reference count. */
  lemma WaysArePaths(s: seq<int>, n: nat, m: map<int, int>)
    requires n < |s| && StrictlyPositiveAscending(s) && Recorded(s, n, m)
    ensures WaysBetween(m, s[n] - 3, s[n]) == Paths(Elems(s), s[n])
  {
    var j := s[n];
    StepTerm(s, n, m, j - 1);
    StepTerm(s, n, m, j - 2);
    StepTerm(s, n, m, j - 3);
    assert WaysBetween(m, j - 3, j - 2) == Term(m, j - 3);
    assert WaysBetween(m, j - 3, j - 1) == Term(m, j - 3) + Term(m, j - 2);
    assert WaysBetween(m, j - 3, j) == Term(m, j - 3) + Term(m, j - 2) + Term(m, j - 1);
  }

  /** One more value keeps the record: the new value's count is the sum of
      the counts 1, 2 and 3 below it. */
  lemma RecordedStep(s: seq<int>, n: nat)
    requires n < |s| && StrictlyPositiveAscending(s) && Recorded(s, n, PathsAfter(s, n))
    ensures Recorded(s, n + 1, PathsAfter(s, n + 1))
  {
    var m := PathsAfter(s, n);
    WaysArePaths(s, n, m);
    var w := Paths(Elems(s), s[n]);
    assert PathsAfter(s, n + 1) == m[s[n] := w];
    KeysStep(s, n, m, w);
    CountsStep(s, n, m);
    assert s[n] > 0;
  }

  lemma RecordedStart(s: seq<int>)
    ensures Recorded(s, 0, map[0 := 1])
  {
  }

  lemma {:induction false} RecordedAfter(s: seq<int>, n: nat)
    requires n <= |s| && StrictlyPositiveAscending(s)
    ensures Recorded(s, n, PathsAfter(s, n))
  {
    if n == 0 {
      RecordedStart(s);
    } else {
      RecordedAfter(s, n - 1);
      RecordedStep(s, n - 1);
    }
  }

  lemma SortedElems(input: seq<int>)
    ensures Elems(SortInts(input)) == Elems(input)
  {
    var s := SortInts(input);
    forall x ensures x in s <==> x in input {
      assert x in s <==> x in multiset(s);
      assert x in input <==> x in multiset(input);
    }
  }

  /** For adapters that are positive and distinct, Part2 is the number of
      ways to reach the highest one from the outlet. */
  lemma Part2Counts(input: seq<int>)
    requires input != [] && StrictlyPositiveAscending(SortInts(input))
    ensures PathsAfter(SortInts(input), |input|)[SortInts(input)[|input| - 1]] ==
      Paths(Elems(input), SortInts(input)[|input| - 1])
  {
    var s := SortInts(input);
    RecordedAfter(s, |s|);
    SortedElems(input);
  }

  /** The puzzle's first example has 8 arrangements. */
  lemma ExampleArrangements()
    ensures Paths({16, 10, 15, 5, 1, 11, 7, 19, 6, 12, 4}, 19) == 8
  {
    var S := {16, 10, 15, 5, 1, 11, 7, 19, 6, 12, 4};
    assert Paths(S, 1) == 1;
    assert Paths(S, 4) == 1;
    assert Paths(S, 5) == 1;
    assert Paths(S, 6) == 2;
    assert Paths(S, 7) == 4;
    assert Paths(S, 10) == 4;
    assert Paths(S, 11) == 4;
    assert Paths(S, 12) == 8;
    assert Paths(S, 15) == 8;
    assert Paths(S, 16) == 8;
    assert Paths(S, 19) == 8;
  }
}
