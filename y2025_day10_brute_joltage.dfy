/** 2025 day 10, part 2 of the slower first attempt: joltage states, the
    helpers on them, and the search that works through states by how much
    joltage they still lack. */
module Y2025Day10BruteJoltage {
  import opened Common
  import opened Modular
  import opened Y2025Day10
  import P2 = Y2025Day10Part2
  import Y2025Day10Brute

  /** `joltageState`: the presses so far and the counters they produced. */
  datatype JoltageState = JoltageState(depth: int, current: seq<int>)

  // ---------------------------------------------------------------- found, priority, overflows

  /** Every counter that has a target is at it. */
  predicate Found(s: JoltageState, desired: seq<int>)
    requires |desired| <= |s.current|
  {
    forall i :: 0 <= i < |desired| ==> s.current[i] == desired[i]
  }

  /** `found`, counter by counter. */
  method CheckFound(s: JoltageState, desired: seq<int>) returns (r: bool)
    requires |desired| <= |s.current|
    ensures r == Found(s, desired)
  {
    for i := 0 to |desired|
      invariant forall k :: 0 <= k < i ==> s.current[k] == desired[k]
    {
      if s.current[i] != desired[i] {
        return false;
      }
    }
    return true;
  }

  /** What each counter still lacks. */
  function Gaps(s: JoltageState, desired: seq<int>): seq<int>
    requires |desired| <= |s.current|
  {
    seq(|desired|, i requires 0 <= i < |desired| => desired[i] - s.current[i])
  }

  /** `priority`: the joltage still lacking, summed over the targets. */
  function Priority(s: JoltageState, desired: seq<int>): int
    requires |desired| <= |s.current|
  {
    Sum(Gaps(s, desired))
  }

  /** `priority`, summing in a loop. */
  method ComputePriority(s: JoltageState, desired: seq<int>) returns (sum: int)
    requires |desired| <= |s.current|
    ensures sum == Priority(s, desired)
  {
    ghost var g := Gaps(s, desired);
    sum := 0;
    for i := 0 to |desired|
      invariant sum == Sum(g[..i])
    {
      assert g[..i + 1][..i] == g[..i];
      sum := sum + (desired[i] - s.current[i]);
    }
    assert g[..|desired|] == g;
  }

  /** Some counter is above its target. */
  predicate Overflows(s: JoltageState, desired: seq<int>)
    requires |desired| <= |s.current|
  {
    exists i :: 0 <= i < |desired| && s.current[i] > desired[i]
  }

  /** `overflows`, counter by counter. */
  method CheckOverflows(s: JoltageState, desired: seq<int>) returns (r: bool)
    requires |desired| <= |s.current|
    ensures r == Overflows(s, desired)
  {
    for i := 0 to |desired|
      invariant forall k :: 0 <= k < i ==> s.current[k] <= desired[k]
    {
      if s.current[i] > desired[i] {
        return true;
      }
    }
    return false;
  }

  /** A state is found exactly when nothing is lacking and nothing is over:
      the bucket of priority 0 holds the answers once no counter passes its
      target. */
  lemma FoundIffSettled(s: JoltageState, desired: seq<int>)
    requires |desired| <= |s.current|
    ensures Found(s, desired) <==> Priority(s, desired) == 0 && !Overflows(s, desired)
  {
    var g := Gaps(s, desired);
    if Found(s, desired) {
      assert g == seq(|desired|, _ => 0);
      P2.SumZeros(|desired|);
    }
    if Priority(s, desired) == 0 && !Overflows(s, desired) {
      assert P2.Nonneg(g);
      forall i | 0 <= i < |desired|
        ensures s.current[i] == desired[i]
      {
        P2.EntryLeSum(g, i);
        P2.SumPoint(g, i, 0);
        P2.NonnegSum(g[i := 0]);
      }
    }
  }

  // ---------------------------------------------------------------- press

  /** The counters after one press: one more on every covered counter. */
  function Bumped(c: seq<int>, b: Bits): seq<int>
  {
    seq(|c|, i requires 0 <= i < |c| => c[i] + (if i in b then 1 else 0))
  }

  /** `press`: a new state with one press more and the covered counters
      raised; the receiver is a value and stays as it was. */
  function Pressed(s: JoltageState, b: Bits): JoltageState
  {
    JoltageState(s.depth + 1, Bumped(s.current, b))
  }

  /** `press`: the counters are copied, then raised in a loop. */
  method Press(s: JoltageState, b: Bits) returns (t: JoltageState)
    ensures t == Pressed(s, b)
  {
    var c := s.current;
    for i := 0 to |s.current|
      invariant |c| == |s.current|
      invariant forall k :: 0 <= k < |c| ==> c[k] == s.current[k] + (if k < i && k in b then 1 else 0)
    {
      if i in b {
        c := c[i := c[i] + 1];
      }
    }
    t := JoltageState(s.depth + 1, c);
  }

  /** The priority is the targets' total less the counters' total. */
  lemma {:induction false} PriorityTotals(s: JoltageState, desired: seq<int>)
    requires |desired| <= |s.current|
    ensures Priority(s, desired) == Sum(desired) - Sum(s.current[..|desired|])
  {
    if desired != [] {
      var n := |desired| - 1;
      PriorityTotals(s, desired[..n]);
      assert Gaps(s, desired)[..n] == Gaps(s, desired[..n]);
      assert s.current[..|desired|][..n] == s.current[..n];
    }
  }

  /** A press raises the counters' total by the number of counters the
      button covers. */
  lemma {:induction false} BumpedSum(c: seq<int>, b: Bits)
    ensures Sum(Bumped(c, b)) == Sum(c) + P2.Hits(b, |c|)
  {
    if c != [] {
      var n := |c| - 1;
      BumpedSum(c[..n], b);
      assert Bumped(c, b)[..n] == Bumped(c[..n], b);
    }
  }

  /** A press lowers the priority by the number of targeted counters the
      button covers. */
  lemma PressedPriority(s: JoltageState, b: Bits, desired: seq<int>)
    requires |desired| <= |s.current|
    ensures Priority(Pressed(s, b), desired) == Priority(s, desired) - P2.Hits(b, |desired|)
  {
    var n := |desired|;
    PriorityTotals(s, desired);
    PriorityTotals(Pressed(s, b), desired);
    assert Bumped(s.current, b)[..n] == Bumped(s.current[..n], b);
    BumpedSum(s.current[..n], b);
  }

  // ---------------------------------------------------------------- worth pressing

  /** The running `target`: the largest lack among the first n counters,
      and at least 0. */
  function Target(s: JoltageState, desired: seq<int>, n: nat): int
    requires n <= |desired| <= |s.current|
  {
    if n == 0 then 0
    else
      var t := Target(s, desired, n - 1);
      var g := desired[n - 1] - s.current[n - 1];
      if t >= g then t else g
  }

  /** `worthPressing`: the button covers no counter at or above its target,
      and covers one whose lack is the largest. */
  predicate Worth(s: JoltageState, desired: seq<int>, b: Bits)
    requires |desired| <= |s.current|
  {
    && (forall i :: 0 <= i < |desired| && i in b ==> s.current[i] < desired[i])
    && (exists i :: 0 <= i < |desired| && i in b && desired[i] - s.current[i] == Target(s, desired, |desired|))
  }

  /** `worthPressing`: one loop computes the largest lack, stopping at a
      covered counter with nothing lacking; a second looks for a covered
      counter lacking that much. */
  method WorthPressing(s: JoltageState, desired: seq<int>, b: Bits) returns (r: bool)
    requires |desired| <= |s.current|
    ensures r == Worth(s, desired, b)
  {
    var target := 0;
    for i := 0 to |desired|
      invariant target == Target(s, desired, i)
      invariant forall k :: 0 <= k < i && k in b ==> s.current[k] < desired[k]
    {
      if i in b && desired[i] <= s.current[i] {
        return false;
      }
      target := if target >= desired[i] - s.current[i] then target else desired[i] - s.current[i];
    }
    for i := 0 to |desired|
      invariant forall k :: 0 <= k < i && k in b ==> desired[k] - s.current[k] != target
    {
      if i in b && desired[i] - s.current[i] == target {
        return true;
      }
    }
    return false;
  }

  /** The target bounds every lack and is never negative. */
  lemma {:induction false} TargetBounds(s: JoltageState, desired: seq<int>, n: nat)
    requires n <= |desired| <= |s.current|
    ensures Target(s, desired, n) >= 0
    ensures forall i :: 0 <= i < n ==> desired[i] - s.current[i] <= Target(s, desired, n)
  {
    if n > 0 {
      TargetBounds(s, desired, n - 1);
    }
  }

  /** A press worth making covers a targeted counter, so it strictly lowers
      the priority, and it takes no counter past its target. */
  lemma WorthPress(s: JoltageState, desired: seq<int>, b: Bits)
    requires |desired| <= |s.current| && Worth(s, desired, b)
    ensures P2.Hits(b, |desired|) >= 1
    ensures Priority(Pressed(s, b), desired) < Priority(s, desired)
    ensures !Overflows(s, desired) ==> !Overflows(Pressed(s, b), desired)
  {
    var i :| 0 <= i < |desired| && i in b && desired[i] - s.current[i] == Target(s, desired, |desired|);
    P2.HitsPositive(b, |desired|, i);
    PressedPriority(s, b, desired);
  }

  // ---------------------------------------------------------------- multiPress

  /** k presses of the same button. */
  function Presses(s: JoltageState, b: Bits, k: nat): (t: JoltageState)
    ensures t.depth == s.depth + k && |t.current| == |s.current|
  {
    if k == 0 then s else Pressed(Presses(s, b, k - 1), b)
  }

  lemma {:induction false} PressesAt(s: JoltageState, b: Bits, k: nat, i: nat)
    requires i < |s.current|
    ensures Presses(s, b, k).current[i] == s.current[i] + (if i in b then k else 0)
  {
    if k > 0 {
      PressesAt(s, b, k - 1, i);
    }
  }

  /** The button raises no counter that has a target. */
  predicate Idle(b: Bits, desired: seq<int>)
  {
    forall i :: 0 <= i < |desired| ==> i !in b
  }

  /** `multiPress`: the states after one, two, ... presses of b, up to but
      not including the first that overflows. When b raises no targeted
      counter and the state does not overflow, no press ever overflows and
      the source loops forever; that is `None`. */
  method MultiPress(s: JoltageState, b: Bits, desired: seq<int>) returns (r: Option<seq<JoltageState>>)
    requires |desired| <= |s.current|
    ensures r.None? <==> Idle(b, desired) && !Overflows(s, desired)
    ensures r.Some? ==> forall j :: 0 <= j < |r.value| ==>
              r.value[j] == Presses(s, b, j + 1) && !Overflows(r.value[j], desired)
    ensures r.Some? ==> Overflows(Presses(s, b, |r.value| + 1), desired)
  {
    if Idle(b, desired) && !Overflows(s, desired) {
      return None;
    }
    ghost var i0: nat;
    if Overflows(s, desired) {
      i0 :| 0 <= i0 < |desired| && s.current[i0] > desired[i0];
    } else {
      i0 :| 0 <= i0 < |desired| && i0 in b;
    }
    var res: seq<JoltageState> := [];
    var prev := s;
    while true
      invariant prev == Presses(s, b, |res|) && |prev.current| == |s.current|
      invariant forall j :: 0 <= j < |res| ==> res[j] == Presses(s, b, j + 1) && !Overflows(res[j], desired)
      invariant !Overflows(s, desired) ==> prev.current[i0] <= desired[i0]
      decreases desired[i0] - prev.current[i0]
    {
      PressesAt(s, b, |res| + 1, i0);
      var next := Press(prev, b);
      var o := CheckOverflows(next, desired);
      if o {
        return Some(res);
      }
      PressesSnoc(s, b, desired, res, next);
      res := res + [next];
      prev := next;
    }
  }

  lemma PressesSnoc(s: JoltageState, b: Bits, desired: seq<int>, res: seq<JoltageState>, next: JoltageState)
    requires |desired| <= |s.current|
    requires forall j :: 0 <= j < |res| ==> res[j] == Presses(s, b, j + 1) && !Overflows(res[j], desired)
    requires next == Presses(s, b, |res| + 1) && !Overflows(next, desired)
    ensures forall j :: 0 <= j < |res| + 1 ==>
              (res + [next])[j] == Presses(s, b, j + 1) && !Overflows((res + [next])[j], desired)
  {
  }

  /** With a button that raises no targeted counter, from a state that does
      not overflow, no number of presses overflows. */
  lemma IdleNeverOverflows(s: JoltageState, b: Bits, desired: seq<int>, k: nat)
    requires |desired| <= |s.current| && Idle(b, desired) && !Overflows(s, desired)
    ensures !Overflows(Presses(s, b, k), desired)
  {
    forall i | 0 <= i < |desired|
      ensures Presses(s, b, k).current[i] <= desired[i]
    {
      PressesAt(s, b, k, i);
    }
  }

  // ---------------------------------------------------------------- factors and factor

  /** The state multiplied by f, presses and counters alike. */
  function Scaled(s: JoltageState, f: int): JoltageState
  {
    JoltageState(s.depth * f, seq(|s.current|, i requires 0 <= i < |s.current| => s.current[i] * f))
  }

  /** The multiple of `factors`, built counter by counter. */
  method Scale(s: JoltageState, f: int) returns (n: JoltageState)
    ensures n == Scaled(s, f)
  {
    var c := seq(|s.current|, _ => 0);
    for i := 0 to |s.current|
      invariant |c| == |s.current|
      invariant forall k :: 0 <= k < i ==> c[k] == s.current[k] * f
    {
      c := c[i := s.current[i] * f];
    }
    n := JoltageState(s.depth * f, c);
  }

  /** No multiple by 2 or more overflows: every targeted counter is at
      most 0 and its double at most its target. */
  predicate Unbounded(s: JoltageState, desired: seq<int>)
    requires |desired| <= |s.current|
  {
    forall i :: 0 <= i < |desired| ==> s.current[i] <= 0 && 2 * s.current[i] <= desired[i]
  }

  lemma UnboundedNeverOverflows(s: JoltageState, desired: seq<int>, f: int)
    requires |desired| <= |s.current| && Unbounded(s, desired) && f >= 2
    ensures !Overflows(Scaled(s, f), desired)
  {
    forall i | 0 <= i < |desired|
      ensures s.current[i] * f <= desired[i]
    {
      assert s.current[i] * f == 2 * s.current[i] + s.current[i] * (f - 2);
      assert s.current[i] * (f - 2) <= 0 by {
        assert -s.current[i] >= 0 && f - 2 >= 0;
        assert (-s.current[i]) * (f - 2) >= 0;
      }
    }
  }

  /** Otherwise some multiple by 2 or more overflows. */
  lemma EscapeFactor(s: JoltageState, desired: seq<int>) returns (f: int)
    requires |desired| <= |s.current| && !Unbounded(s, desired)
    ensures f >= 2 && Overflows(Scaled(s, f), desired)
  {
    var i :| 0 <= i < |desired| && !(s.current[i] <= 0 && 2 * s.current[i] <= desired[i]);
    var c, t := s.current[i], desired[i];
    if c > 0 {
      f := if t + 1 >= 2 then t + 1 else 2;
      MulAtLeast(c, f);
      assert Scaled(s, f).current[i] == c * f;
    } else {
      f := 2;
      assert Scaled(s, f).current[i] == 2 * c;
    }
  }

  /** `factors`: it tries the multiples by 2, 3, ... until one overflows
      and appends none of them, so it yields nothing; for a state with
      presses whose multiples never overflow it loops forever, which is
      `None`. */
  method Factors(s: JoltageState, desired: seq<int>) returns (r: Option<seq<JoltageState>>)
    requires |desired| <= |s.current|
    ensures r.None? <==> s.depth != 0 && Unbounded(s, desired)
    ensures r.Some? ==> r.value == []
  {
    if s.depth == 0 {
      return Some([]);
    }
    if Unbounded(s, desired) {
      return None;
    }
    ghost var last := EscapeFactor(s, desired);
    var f := 2;
    while true
      invariant 2 <= f <= last
      decreases last - f
    {
      var n := Scale(s, f);
      var o := CheckOverflows(n, desired);
      if o {
        break;
      }
      f := f + 1;
    }
    return Some([]);
  }

  /** Every targeted counter is nonzero and divides its target, with the
      truncated quotient of the first. */
  predicate Uniform(s: JoltageState, desired: seq<int>)
    requires 0 < |desired| <= |s.current|
  {
    && s.current[0] != 0
    && forall i :: 0 <= i < |desired| ==>
         && s.current[i] != 0
         && TRem(desired[i], s.current[i]) == 0
         && TDiv(desired[i], s.current[i]) == TDiv(desired[0], s.current[0])
  }

  /** `factor`: the common quotient of the targets by the counters, or 0
      when there is none; with no targets, reading `desired[0]` panics. */
  method Factor(s: JoltageState, desired: seq<int>) returns (r: Result<int>)
    requires |desired| <= |s.current|
    ensures |desired| == 0 ==> r == Err("index out of range")
    ensures |desired| > 0 ==> r == Ok(if Uniform(s, desired) then TDiv(desired[0], s.current[0]) else 0)
  {
    for i := 0 to |desired|
      invariant i > 0 ==> s.current[0] != 0
      invariant forall k :: 0 <= k < i ==>
                  s.current[k] != 0 && TRem(desired[k], s.current[k]) == 0
                  && TDiv(desired[k], s.current[k]) == TDiv(desired[0], s.current[0])
    {
      if s.current[i] == 0 || TRem(desired[i], s.current[i]) != 0 {
        return Ok(0);
      }
      if TDiv(desired[i], s.current[i]) != TDiv(desired[0], s.current[0]) {
        return Ok(0);
      }
    }
    if |desired| == 0 {
      return Err("index out of range");
    }
    return Ok(TDiv(desired[0], s.current[0]));
  }

  /** Truncated division is exact precisely at multiples. */
  lemma ExactTDiv(a: int, b: int, q: int)
    requires b != 0
    ensures TRem(a, b) == 0 && TDiv(a, b) == q <==> a == q * b
  {
    TDivRem(a, b);
    var t, r := TDiv(a, b), TRem(a, b);
    if a == q * b {
      assert (q - t) * b == r by {
        assert (q - t) * b == q * b - t * b;
      }
      SmallMultiple(q - t, b);
    }
  }

  /** The only multiple of b smaller than b in size is 0. */
  lemma SmallMultiple(u: int, b: int)
    requires b != 0
    ensures Abs(u * b) < Abs(b) ==> u == 0
  {
    if u > 0 && b > 0 {
      MulAtLeast(u, b);
    } else if u > 0 && b < 0 {
      MulAtLeast(u, -b);
      assert u * (-b) == -(u * b);
    } else if u < 0 && b > 0 {
      MulAtLeast(-u, b);
      assert (-u) * b == -(u * b);
    } else if u < 0 {
      MulAtLeast(-u, -b);
      assert (-u) * (-b) == u * b;
    }
  }

  /** The counters divide the targets uniformly, with quotient q, exactly
      when every target is q times its nonzero counter. */
  lemma UniformMultiple(s: JoltageState, desired: seq<int>, q: int)
    requires 0 < |desired| <= |s.current|
    ensures (Uniform(s, desired) && TDiv(desired[0], s.current[0]) == q)
        <==> (forall i :: 0 <= i < |desired| ==> s.current[i] != 0 && desired[i] == q * s.current[i])
  {
    if Uniform(s, desired) && TDiv(desired[0], s.current[0]) == q {
      forall i | 0 <= i < |desired|
        ensures desired[i] == q * s.current[i]
      {
        ExactTDiv(desired[i], s.current[i], q);
      }
    }
    if forall i :: 0 <= i < |desired| ==> s.current[i] != 0 && desired[i] == q * s.current[i] {
      forall i | 0 <= i < |desired|
        ensures TRem(desired[i], s.current[i]) == 0 && TDiv(desired[i], s.current[i]) == q
      {
        ExactTDiv(desired[i], s.current[i], q);
      }
    }
  }

  // ---------------------------------------------------------------- the search

  /** The most a counter reaches: its target, or 0 below a negative one. */
  function Cap(t: int): nat
  {
    if t >= 0 then t else 0
  }

  /** The caps summed: no queued state holds more presses. */
  function Ceiling(desired: seq<int>): nat
  {
    if desired == [] then 0 else Ceiling(desired[..|desired| - 1]) + Cap(desired[|desired| - 1])
  }

  /** `copy` of the counters into a `[10]int` map key: the first ten,
      padded with zeros. */
  function Key(c: seq<int>): seq<int>
  {
    seq(10, i requires 0 <= i < 10 => if i < |c| then c[i] else 0)
  }

  /** Press counts x of the sorted buttons bs that total the state's
      presses and produce its counters. */
  ghost predicate PressedBy(bs: seq<Bits>, s: JoltageState, x: seq<int>)
  {
    && |x| == |bs| && P2.Nonneg(x) && Sum(x) == s.depth
    && forall i :: 0 <= i < |s.current| ==> P2.Counter(bs, x, i) == s.current[i]
  }

  /** What every queued state satisfies: one counter per target, each
      between 0 and its cap, no more presses than the counters total, and
      press counts of the sorted buttons that produce it. */
  ghost predicate Valid(bs: seq<Bits>, desired: seq<int>, s: JoltageState)
  {
    && |s.current| == |desired|
    && (forall i :: 0 <= i < |desired| ==> 0 <= s.current[i] <= Cap(desired[i]))
    && 0 <= s.depth <= Sum(s.current)
    && exists x :: PressedBy(bs, s, x)
  }

  /** Every state in bucket j is valid and has priority j. */
  ghost predicate Bucketed(bs: seq<Bits>, desired: seq<int>, pq: seq<seq<JoltageState>>)
  {
    forall j, k :: 0 <= j < |pq| && 0 <= k < |pq[j]| ==>
      Valid(bs, desired, pq[j][k]) && |pq[j][k].current| == |desired| && Priority(pq[j][k], desired) == j
  }

  /** The pairs of key and depth ever recorded: the current record of each
      key is one of them and the largest. */
  ghost predicate Recorded(seen: map<seq<int>, int>, used: set<(seq<int>, int)>)
  {
    && (forall key :: key in seen ==> (key, seen[key]) in used)
    && (forall u :: u in used ==> u.0 in seen && u.1 <= seen[u.0])
  }

  /** Every pair a valid state can record. */
  ghost function Universe(desired: seq<int>): set<(seq<int>, int)>
  {
    var top := Ceiling(desired);
    set key, e | key in P2.Box(10, top) && 0 <= e <= top :: (key, e)
  }

  /** The state of `bruteNumPressesPart2` between steps. */
  ghost predicate Frontier(bs: seq<Bits>, desired: seq<int>, pq: seq<seq<JoltageState>>,
                          seen: map<seq<int>, int>, used: set<(seq<int>, int)>)
  {
    Bucketed(bs, desired, pq) && Recorded(seen, used) && used <= Universe(desired)
  }

  /** How many states the buckets hold. */
  function TotalLen(pq: seq<seq<JoltageState>>): nat
  {
    if pq == [] then 0 else TotalLen(pq[..|pq| - 1]) + |pq[|pq| - 1]|
  }

  /** What shrinks as the search goes on: each push records a new pair,
      each processed bucket is emptied. */
  ghost function Measure(desired: seq<int>, pq: seq<seq<JoltageState>>, used: set<(seq<int>, int)>): int
  {
    2 * |Universe(desired) - used| + TotalLen(pq)
  }

  lemma {:induction false} TotalLenUpdate(pq: seq<seq<JoltageState>>, j: nat, q: seq<JoltageState>)
    requires j < |pq|
    ensures TotalLen(pq[j := q]) == TotalLen(pq) - |pq[j]| + |q|
  {
    var n := |pq| - 1;
    if j < n {
      TotalLenUpdate(pq[..n], j, q);
      assert pq[j := q][..n] == pq[..n][j := q];
    } else {
      assert pq[j := q][..n] == pq[..n];
    }
  }

  /** Counters between 0 and their caps total at most the ceiling. */
  lemma {:induction false} CeilingBound(c: seq<int>, desired: seq<int>)
    requires |c| == |desired| && forall i :: 0 <= i < |c| ==> 0 <= c[i] <= Cap(desired[i])
    ensures Sum(c) <= Ceiling(desired)
  {
    if c != [] {
      var n := |c| - 1;
      CeilingBound(c[..n], desired[..n]);
    }
  }

  /** A valid state's key and depth lie in the universe. */
  lemma ValidInUniverse(bs: seq<Bits>, desired: seq<int>, s: JoltageState)
    requires Valid(bs, desired, s)
    ensures (Key(s.current), s.depth) in Universe(desired)
  {
    var c := s.current;
    var top := Ceiling(desired);
    CeilingBound(c, desired);
    assert P2.Nonneg(c);
    var key := Key(c);
    forall i | 0 <= i < 10
      ensures 0 <= key[i] <= top
    {
      if i < |c| {
        P2.EntryLeSum(c, i);
      }
    }
    P2.InBox(key, top);
  }

  /** A valid state with presses has a positive counter, so its multiples
      eventually overflow. */
  lemma ValidBounded(bs: seq<Bits>, desired: seq<int>, s: JoltageState)
    requires Valid(bs, desired, s)
    ensures !(s.depth != 0 && Unbounded(s, desired))
  {
    if s.depth != 0 {
      var c := s.current;
      assert P2.Nonneg(c);
      if forall i :: 0 <= i < |c| ==> c[i] == 0 {
        assert c == seq(|c|, _ => 0);
        P2.SumZeros(|c|);
      }
    }
  }

  /** Pressing button j raises each counter it covers by one more. */
  lemma {:induction false} CounterBump(bs: seq<Bits>, x: seq<int>, j: nat, i: nat)
    requires |x| == |bs| && j < |bs|
    ensures P2.Counter(bs, x[j := x[j] + 1], i) == P2.Counter(bs, x, i) + (if i in bs[j] then 1 else 0)
  {
    if j > 0 {
      CounterBump(bs[1..], x[1..], j - 1, i);
      assert x[j := x[j] + 1][1..] == x[1..][j - 1 := x[1..][j - 1] + 1];
    } else {
      assert x[j := x[j] + 1][1..] == x[1..];
    }
  }

  /** A press worth making from a valid state leads to a valid state. */
  lemma PressValid(bs: seq<Bits>, desired: seq<int>, s: JoltageState, j: nat)
    requires Valid(bs, desired, s) && j < |bs| && Worth(s, desired, bs[j])
    ensures Valid(bs, desired, Pressed(s, bs[j]))
  {
    var b := bs[j];
    var t := Pressed(s, b);
    var x :| PressedBy(bs, s, x);
    var y := x[j := x[j] + 1];
    forall i | 0 <= i < |t.current|
      ensures P2.Counter(bs, y, i) == t.current[i]
    {
      CounterBump(bs, x, j, i);
    }
    P2.SumPoint(x, j, x[j] + 1);
    assert PressedBy(bs, t, y);
    BumpedSum(s.current, b);
    WorthPress(s, desired, b);
  }

  /** With non-negative targets a valid state's priority is not negative. */
  lemma ValidPriority(bs: seq<Bits>, desired: seq<int>, s: JoltageState)
    requires Valid(bs, desired, s) && P2.Nonneg(desired)
    ensures Priority(s, desired) >= 0 && !Overflows(s, desired)
  {
    assert P2.Nonneg(Gaps(s, desired));
    P2.NonnegSum(Gaps(s, desired));
  }

  /** The push of both inner loops of `bruteNumPressesPart2`: a state whose
      key is unrecorded, or recorded with fewer presses, is recorded and
      joins the bucket of its priority; a priority outside the buckets
      panics. */
  method Offer(s: JoltageState, desired: seq<int>, seen: map<seq<int>, int>, pq: seq<seq<JoltageState>>)
    returns (r: Result<(map<seq<int>, int>, seq<seq<JoltageState>>)>)
    requires |desired| <= |s.current|
    ensures Key(s.current) in seen && seen[Key(s.current)] >= s.depth ==> r == Ok((seen, pq))
    ensures !(Key(s.current) in seen && seen[Key(s.current)] >= s.depth) ==>
              var p := Priority(s, desired);
              r == if 0 <= p < |pq| then Ok((seen[Key(s.current) := s.depth], pq[p := pq[p] + [s]]))
                   else Err("index out of range")
  {
    var key := Key(s.current);
    if key !in seen || seen[key] < s.depth {
      var p := ComputePriority(s, desired);
      if p < 0 || p >= |pq| {
        return Err("index out of range");
      }
      return Ok((seen[key := s.depth], pq[p := pq[p] + [s]]));
    }
    return Ok((seen, pq));
  }

  /** A push keeps the frontier and records a new pair of the universe. */
  lemma OfferKeeps(bs: seq<Bits>, desired: seq<int>, pq: seq<seq<JoltageState>>,
                   seen: map<seq<int>, int>, used: set<(seq<int>, int)>, s: JoltageState)
    requires Frontier(bs, desired, pq, seen, used) && Valid(bs, desired, s)
    requires 0 <= Priority(s, desired) < |pq|
    requires !(Key(s.current) in seen && seen[Key(s.current)] >= s.depth)
    ensures var p := Priority(s, desired);
            var u := (Key(s.current), s.depth);
            && Frontier(bs, desired, pq[p := pq[p] + [s]], seen[Key(s.current) := s.depth], used + {u})
            && Measure(desired, pq[p := pq[p] + [s]], used + {u}) < Measure(desired, pq, used)
  {
    var p := Priority(s, desired);
    var u := (Key(s.current), s.depth);
    ValidInUniverse(bs, desired, s);
    PushBucketed(bs, desired, pq, s, p);
    RecordNew(seen, used, Key(s.current), s.depth);
    PushMeasure(desired, pq, used, s, p, u);
  }

  /** A valid state joins the bucket of its priority. */
  lemma PushBucketed(bs: seq<Bits>, desired: seq<int>, pq: seq<seq<JoltageState>>, s: JoltageState, p: nat)
    requires Bucketed(bs, desired, pq) && Valid(bs, desired, s)
    requires p < |pq| && Priority(s, desired) == p
    ensures Bucketed(bs, desired, pq[p := pq[p] + [s]])
  {
    var pq' := pq[p := pq[p] + [s]];
    forall j, k | 0 <= j < |pq'| && 0 <= k < |pq'[j]|
      ensures Valid(bs, desired, pq'[j][k]) && |pq'[j][k].current| == |desired| && Priority(pq'[j][k], desired) == j
    {
      if j == p && k == |pq[p]| {
        assert pq'[j][k] == s;
      } else {
        assert pq'[j][k] == pq[j][k];
      }
    }
  }

  /** Recording a key at a depth above its record adds a new pair. */
  lemma RecordNew(seen: map<seq<int>, int>, used: set<(seq<int>, int)>, key: seq<int>, e: int)
    requires Recorded(seen, used) && !(key in seen && seen[key] >= e)
    ensures (key, e) !in used && Recorded(seen[key := e], used + {(key, e)})
  {
  }

  /** A new pair of the universe outweighs the state it queues. */
  lemma PushMeasure(desired: seq<int>, pq: seq<seq<JoltageState>>, used: set<(seq<int>, int)>,
                    s: JoltageState, p: nat, u: (seq<int>, int))
    requires p < |pq| && u in Universe(desired) && u !in used
    ensures Measure(desired, pq[p := pq[p] + [s]], used + {u}) < Measure(desired, pq, used)
  {
    var all := Universe(desired);
    assert all - (used + {u}) == (all - used) - {u};
    assert u in all - used;
    TotalLenUpdate(pq, p, pq[p] + [s]);
  }

  /** Emptying a bucket keeps the frontier and lowers the measure by its
      size. */
  lemma ClearKeeps(bs: seq<Bits>, desired: seq<int>, pq: seq<seq<JoltageState>>,
                   seen: map<seq<int>, int>, used: set<(seq<int>, int)>, j: nat)
    requires Frontier(bs, desired, pq, seen, used) && j < |pq|
    ensures Frontier(bs, desired, pq[j := []], seen, used)
    ensures Measure(desired, pq[j := []], used) == Measure(desired, pq, used) - |pq[j]|
  {
    TotalLenUpdate(pq, j, []);
    var pq' := pq[j := []];
    forall j', k | 0 <= j' < |pq'| && 0 <= k < |pq'[j']|
      ensures Valid(bs, desired, pq'[j'][k]) && |pq'[j'][k].current| == |desired| && Priority(pq'[j'][k], desired) == j'
    {
      assert pq'[j'] == pq[j'];
    }
  }

  /** The work of `bruteNumPressesPart2` on one state: its factors, which
      are none, then every button worth pressing, offered in the sorted
      order. */
  method Explore(bs: seq<Bits>, desired: seq<int>, cur: JoltageState,
                 seen: map<seq<int>, int>, pq: seq<seq<JoltageState>>, ghost used: set<(seq<int>, int)>)
    returns (r: Result<(map<seq<int>, int>, seq<seq<JoltageState>>)>, ghost used': set<(seq<int>, int)>)
    requires Frontier(bs, desired, pq, seen, used) && Valid(bs, desired, cur)
    requires Priority(cur, desired) < |pq|
    ensures r.Ok? ==> && |r.value.1| == |pq| && Frontier(bs, desired, r.value.1, r.value.0, used')
                      && Measure(desired, r.value.1, used') <= Measure(desired, pq, used)
    ensures r.Err? ==> r.msg == "index out of range" && !P2.Nonneg(desired)
  {
    ValidBounded(bs, desired, cur);
    var fs := Factors(cur, desired);
    assert fs == Some([]);
    var seen1, pq1 := seen, pq;
    used' := used;
    for j := 0 to |bs|
      invariant |pq1| == |pq| && Frontier(bs, desired, pq1, seen1, used')
      invariant Measure(desired, pq1, used') <= Measure(desired, pq, used)
    {
      var w := WorthPressing(cur, desired, bs[j]);
      if w {
        var s := Press(cur, bs[j]);
        PressValid(bs, desired, cur, j);
        WorthPress(cur, desired, bs[j]);
        var o := Offer(s, desired, seen1, pq1);
        if o.Err? {
          if P2.Nonneg(desired) {
            ValidPriority(bs, desired, s);
          }
          return Err(o.msg), used';
        }
        if !(Key(s.current) in seen1 && seen1[Key(s.current)] >= s.depth) {
          if P2.Nonneg(desired) {
            ValidPriority(bs, desired, s);
          }
          OfferKeeps(bs, desired, pq1, seen1, used', s);
          used' := used' + {(Key(s.current), s.depth)};
        }
        seen1, pq1 := o.value.0, o.value.1;
      }
    }
    r := Ok((seen1, pq1));
  }

  /** The smallest depth in a bucket, and where it is. */
  method MinDepth(q: seq<JoltageState>) returns (best: int, ghost at: nat)
    requires q != []
    ensures at < |q| && q[at].depth == best
    ensures forall k :: 0 <= k < |q| ==> best <= q[k].depth
  {
    best, at := q[0].depth, 0;
    for k := 0 to |q|
      invariant at < |q| && q[at].depth == best
      invariant forall k' :: 0 <= k' < k ==> best <= q[k'].depth
    {
      if q[k].depth < best {
        best, at := q[k].depth, k;
      }
    }
  }

  /** How one pass over the buckets ends: with the answer, with a panic, or
      with the buckets and records for the next pass and whether any bucket
      held a state. */
  datatype Outcome =
    | Answer(best: nat)
    | Panic(msg: string)
    | Next(seen: map<seq<int>, int>, pq: seq<seq<JoltageState>>, progress: bool)

  /** One pass of the `range pq` loop: the buckets in ascending priority; a
      non-empty bucket 0 gives the smallest depth in it; any other
      non-empty bucket is emptied and each of its states explored, each
      push going to a lower bucket. */
  method Pass(bs: seq<Bits>, desired: seq<int>, pq: seq<seq<JoltageState>>,
              seen: map<seq<int>, int>, ghost used: set<(seq<int>, int)>)
    returns (o: Outcome, ghost used': set<(seq<int>, int)>, ghost w: JoltageState)
    requires Frontier(bs, desired, pq, seen, used)
    ensures o.Answer? ==> pq != [] && Valid(bs, desired, w) && Priority(w, desired) == 0 && w.depth == o.best
    ensures o.Answer? ==> pq[0] != [] && forall k :: 0 <= k < |pq[0]| ==> o.best <= pq[0][k].depth
    ensures o.Panic? ==> o.msg == "index out of range" && !P2.Nonneg(desired)
    ensures o.Next? ==> |o.pq| == |pq| && Frontier(bs, desired, o.pq, o.seen, used')
    ensures o.Next? && o.progress ==> Measure(desired, o.pq, used') < Measure(desired, pq, used)
    ensures o.Next? && !o.progress ==> o.pq == pq && o.seen == seen && used' == used
  {
    var seen1, pq1 := seen, pq;
    used', w := used, JoltageState(0, []);
    var progress := false;
    for pri := 0 to |pq|
      invariant |pq1| == |pq| && Frontier(bs, desired, pq1, seen1, used')
      invariant progress ==> Measure(desired, pq1, used') < Measure(desired, pq, used)
      invariant !progress ==> pq1 == pq && seen1 == seen && used' == used
      invariant pri == 0 ==> !progress
    {
      var q := pq1[pri];
      if q != [] {
        if pri == 0 {
          var best, at := MinDepth(q);
          w := q[at];
          return Answer(best), used', w;
        }
        assert forall k :: 0 <= k < |q| ==> Valid(bs, desired, q[k]) && Priority(q[k], desired) == pri;
        ClearKeeps(bs, desired, pq1, seen1, used', pri);
        pq1 := pq1[pri := []];
        progress := true;
        for k := 0 to |q|
          invariant |pq1| == |pq| && Frontier(bs, desired, pq1, seen1, used')
          invariant Measure(desired, pq1, used') < Measure(desired, pq, used)
        {
          var r;
          r, used' := Explore(bs, desired, q[k], seen1, pq1, used');
          if r.Err? {
            return Panic(r.msg), used', w;
          }
          seen1, pq1 := r.value.0, r.value.1;
        }
      }
    }
    return Next(seen1, pq1, progress), used', w;
  }

  /** Press counts of the sorted buttons for a found state, rearranged,
      configure the machine. */
  lemma Conclude(mc: Machine, w: JoltageState)
    requires P2.Nonneg(mc.joltage) && Valid(P2.SortByOnes(mc.buttons), mc.joltage, w)
    requires Priority(w, mc.joltage) == 0
    ensures P2.Attainable(mc, w.depth)
  {
    var bs := P2.SortByOnes(mc.buttons);
    ValidPriority(bs, mc.joltage, w);
    FoundIffSettled(w, mc.joltage);
    var x :| PressedBy(bs, w, x);
    var y := P2.Unsort(mc.buttons, x);
    forall i | 0 <= i < |mc.joltage|
      ensures P2.Counter(mc.buttons, y, i) == mc.joltage[i]
    {
      P2.UnsortCounter(mc.buttons, x, i);
    }
    P2.UnsortSum(mc.buttons, x);
    P2.UnsortNonneg(mc.buttons, x);
    assert P2.Reach(mc.buttons, mc.joltage, y);
  }

  /** No presses raise no counter. */
  lemma {:induction false} CounterZeros(bs: seq<Bits>, i: nat)
    ensures P2.Counter(bs, seq(|bs|, _ => 0), i) == 0
  {
    if bs != [] {
      assert seq(|bs|, _ => 0)[1..] == seq(|bs| - 1, _ => 0);
      CounterZeros(bs[1..], i);
    }
  }

  /** The search starts from a single valid state in the top bucket. */
  lemma InitialFrontier(bs: seq<Bits>, desired: seq<int>, init: JoltageState, top: nat)
    requires init == JoltageState(0, seq(|desired|, _ => 0)) && Priority(init, desired) == top
    ensures Frontier(bs, desired, seq(top + 1, _ => [])[top := [init]],
                     map[Key(init.current) := 0], {(Key(init.current), 0)})
  {
    var zeros := seq(|bs|, _ => 0);
    forall i | 0 <= i < |init.current|
      ensures P2.Counter(bs, zeros, i) == init.current[i]
    {
      CounterZeros(bs, i);
    }
    P2.SumZeros(|bs|);
    P2.SumZeros(|desired|);
    assert PressedBy(bs, init, zeros);
    assert P2.Nonneg(zeros);
    ValidInUniverse(bs, desired, init);
    var pq := seq(top + 1, _ => [])[top := [init]];
    forall j, k | 0 <= j < |pq| && 0 <= k < |pq[j]|
      ensures Valid(bs, desired, pq[j][k]) && |pq[j][k].current| == |desired| && Priority(pq[j][k], desired) == j
    {
      assert j == top && pq[j][k] == init;
    }
  }

  /** `bruteNumPressesPart2` without its timeout: the buttons sorted by
      size, stably, largest first; buckets by priority, the start state
      in the top one; passes over the buckets until bucket 0 holds a state.
      With non-negative targets it never panics, and the presses it
      reports configure the machine. An endless loop, when no bucket holds
      a state, is `Ok(None)`. */
  method NumPressesPart2(m: Machine) returns (r: Result<Option<nat>>)
    ensures P2.Nonneg(m.joltage) ==> r.Ok?
    ensures r.Err? ==> r.msg == "makeslice: len out of range" || r.msg == "index out of range"
    ensures r.Err? && r.msg == "makeslice: len out of range" <==> Sum(m.joltage) + 1 < 0
    ensures P2.Nonneg(m.joltage) && r.Ok? && r.value.Some? ==> P2.Attainable(m, r.value.value)
  {
    var bs := P2.SortByOnes(m.buttons);
    var desired := m.joltage;
    var initial := JoltageState(0, seq(|desired|, _ => 0));
    var initialPri := ComputePriority(initial, desired);
    assert initialPri == Sum(desired) by {
      PriorityTotals(initial, desired);
      P2.SumZeros(|desired|);
      assert initial.current[..|desired|] == seq(|desired|, _ => 0);
    }
    if P2.Nonneg(desired) {
      P2.NonnegSum(desired);
    }
    if initialPri + 1 < 0 {
      return Err("makeslice: len out of range");
    }
    if initialPri < 0 {
      return Err("index out of range");
    }
    var seen := map[Key(initial.current) := 0];
    var pq: seq<seq<JoltageState>> := seq(initialPri + 1, _ => []);
    pq := pq[initialPri := [initial]];
    ghost var used := {(Key(initial.current), 0)};
    InitialFrontier(bs, desired, initial, initialPri);
    while true
      invariant Frontier(bs, desired, pq, seen, used)
      decreases Measure(desired, pq, used)
    {
      var o, used', w := Pass(bs, desired, pq, seen, used);
      match o {
        case Answer(best) =>
          if P2.Nonneg(desired) {
            Conclude(m, w);
          }
          return Ok(Some(best));
        case Panic(msg) =>
          return Err(msg);
        case Next(seen', pq', progress) =>
          if !progress {
            return Ok(None);
          }
          seen, pq, used := seen', pq', used';
      }
    }
  }

  // ---------------------------------------------------------------- part 2

  /** Every machine whose targets are non-negative is configured by the
      presses at its position. */
  ghost predicate Reported(ms: seq<Machine>, xs: seq<nat>)
  {
    |xs| == |ms| && forall k :: 0 <= k < |ms| ==> P2.Nonneg(ms[k].joltage) ==> P2.Attainable(ms[k], xs[k])
  }

  lemma ReportedSnoc(ms: seq<Machine>, xs: seq<nat>, x: nat)
    requires |xs| < |ms| && (P2.Nonneg(ms[|xs|].joltage) ==> P2.Attainable(ms[|xs|], x))
    requires forall k :: 0 <= k < |xs| ==> P2.Nonneg(ms[k].joltage) ==> P2.Attainable(ms[k], xs[k])
    ensures forall k :: 0 <= k < |xs| + 1 ==> P2.Nonneg(ms[k].joltage) ==> P2.Attainable(ms[k], (xs + [x])[k])
    ensures Sum(xs + [x]) == Sum(xs) + x
  {
    assert (xs + [x])[..|xs|] == xs;
  }

  /** The summing loop of `brutePart2`: a machine with a negative target
      may panic, which ends the run; a search that finds no bucket to work
      on never ends, which is `Ok(None)`. */
  method SumPresses2(ms: seq<Machine>) returns (r: Result<Option<int>>)
    ensures (forall k :: 0 <= k < |ms| ==> P2.Nonneg(ms[k].joltage)) ==> r.Ok?
    ensures r.Err? ==> exists k :: 0 <= k < |ms| && !P2.Nonneg(ms[k].joltage)
    ensures r.Ok? && r.value.Some? ==> exists xs: seq<nat> :: Reported(ms, xs) && r.value.value == Sum(xs)
  {
    var sum := 0;
    ghost var xs: seq<nat> := [];
    for k := 0 to |ms|
      invariant |xs| == k && sum == Sum(xs)
      invariant forall k' :: 0 <= k' < k ==> P2.Nonneg(ms[k'].joltage) ==> P2.Attainable(ms[k'], xs[k'])
    {
      var x := NumPressesPart2(ms[k]);
      if x.Err? {
        return Err(x.msg);
      }
      if x.value.None? {
        return Ok(None);
      }
      ReportedSnoc(ms, xs, x.value.value);
      xs := xs + [x.value.value];
      sum := sum + x.value.value;
    }
    assert Reported(ms, xs);
    r := Ok(Some(sum));
  }

  /** `brutePart2`: the lines are parsed, then the presses found for each
      machine are summed. Lines that parse to machines with non-negative
      targets never fail, and the total is then a sum of press counts that
      configure the machines one by one. */
  method BrutePart2(lines: seq<string>) returns (r: Result<Option<int>>)
    ensures (forall k :: 0 <= k < |lines| ==> MachineOf(lines[k]).Ok? && P2.Nonneg(MachineOf(lines[k]).value.joltage)) ==> r.Ok?
    ensures r.Err? ==> exists k :: 0 <= k < |lines| && (MachineOf(lines[k]).Err? || !P2.Nonneg(MachineOf(lines[k]).value.joltage))
    ensures r.Ok? ==> forall k :: 0 <= k < |lines| ==> MachineOf(lines[k]).Ok?
    ensures r.Ok? && r.value.Some? ==> exists ms, xs: seq<nat> :: MachinesOf(lines, ms) && Reported(ms, xs) && r.value.value == Sum(xs)
  {
    var parsed := Y2025Day10Brute.BruteParseMachines(lines);
    if parsed.Err? {
      return Err(parsed.msg);
    }
    var ms := parsed.value;
    assert forall k :: 0 <= k < |lines| ==> MachineOf(lines[k]) == Ok(ms[k]);
    r := SumPresses2(ms);
  }
}
