/** 2020 day 9: the first number that is not a sum of two numbers among the
    previous `windowSize`, and a contiguous run summing to it. */
module Y2020Day09 {
  import opened Common

  /** The source's test `window.firstOrNull { x -> available.contains(it - x) }`:
      some window value x has its complement t − x in the window, where x
      itself counts, so t = 2x matches on its own. */
  predicate Matched(win: seq<int>, t: int)
  {
    exists j :: 0 <= j < |win| && t - win[j] in win
  }

  /** The rule as the puzzle states it: two window values that differ. */
  predicate MatchedDistinct(win: seq<int>, t: int)
  {
    exists j :: 0 <= j < |win| && t - win[j] in win && t - win[j] != win[j]
  }

  predicate Check(win: seq<int>, t: int, distinct: bool)
  {
    if distinct then MatchedDistinct(win, t) else Matched(win, t)
  }

  /** The window after i values: the last min(i, w) of them. */
  function WinStart(i: nat, w: nat): nat
  {
    if i >= w then i - w else 0
  }

  /** What `find` computes from value i on: the first value with a full
      window that does not match, a value already in the window (after the
      oldest left) throws, and running out of values throws. */
  function FindFrom(v: seq<int>, w: nat, i: nat, distinct: bool): Result<int>
    requires i <= |v|
    decreases |v| - i
  {
    if i == |v| then Err("All values matched two previous")
    else if i >= w && !Check(v[i - w..i], v[i], distinct) then Ok(v[i])
    else if v[i] in v[if i >= w then i - w + 1 else 0..i] then Err("Duplicate value")
    else FindFrom(v, w, i + 1, distinct)
  }

  function Elements(s: seq<int>): set<int>
  {
    set x | x in s
  }

  predicate DistinctValues(s: seq<int>)
  {
    forall a, b :: 0 <= a < b < |s| ==> s[a] != s[b]
  }

  /** The `firstOrNull` test against the set `available`. */
  function Found(window: seq<int>, available: set<int>, it: int, distinct: bool): bool
  {
    if distinct then exists j :: 0 <= j < |window| && it - window[j] in available && it - window[j] != window[j]
    else exists j :: 0 <= j < |window| && it - window[j] in available
  }

  lemma FoundIsCheck(window: seq<int>, available: set<int>, it: int, distinct: bool)
    requires available == Elements(window)
    ensures Found(window, available, it, distinct) == Check(window, it, distinct)
  {
  }

  /** `find`, with the ArrayDeque `window` and the set `available`; the
      `distinct` flag selects the puzzle's rule instead of the source's. */
  method FindWith(v: seq<int>, w: nat, distinct: bool) returns (r: Result<int>)
    ensures r == FindFrom(v, w, 0, distinct)
  {
    var window: seq<int> := [];
    var available: set<int> := {};
    var i := 0;
    ghost var lo := 0;
    while i < |v|
      invariant i <= |v| && WindowAt(v, w, i, lo, window, available)
      invariant FindFrom(v, w, i, distinct) == FindFrom(v, w, 0, distinct)
    {
      var done;
      done, r, window, available, lo := Slide(v, w, i, distinct, window, available, lo);
      if done {
        return;
      }
      i := i + 1;
    }
    r := Err("All values matched two previous");
  }

  /** The deque and the set before value i: the last min(i, w) values,
      all different. */
  ghost predicate WindowAt(v: seq<int>, w: nat, i: nat, lo: nat, window: seq<int>, available: set<int>)
  {
    lo <= i <= |v| && lo == WinStart(i, w) && window == v[lo..i] &&
    available == Elements(window) && DistinctValues(window)
  }

  /** The deque and the set once the oldest value has left, if the window
      was full: what value i is tested against for repeats. */
  ghost predicate Pending(v: seq<int>, w: nat, i: nat, lo: nat, window: seq<int>, available: set<int>)
  {
    lo <= i < |v| && lo == WinStart(i + 1, w) && window == v[lo..i] &&
    available == Elements(window) && DistinctValues(window)
  }

  lemma PendingFull(v: seq<int>, w: nat, i: nat, lo: nat, window: seq<int>, available: set<int>)
    requires i < |v| && WindowAt(v, w, i, lo, window, available) && |window| == w && window != []
    ensures Pending(v, w, i, lo + 1, window[1..], available - {window[0]})
  {
    DropOldest(window, available);
    assert window[1..] == v[lo + 1..i];
  }

  lemma PendingShort(v: seq<int>, w: nat, i: nat, lo: nat, window: seq<int>, available: set<int>)
    requires i < |v| && WindowAt(v, w, i, lo, window, available) && |window| != w
    ensures Pending(v, w, i, lo, window, available)
  {
  }

  lemma PendingAdd(v: seq<int>, w: nat, i: nat, lo: nat, window: seq<int>, available: set<int>)
    requires Pending(v, w, i, lo, window, available)
    ensures v[i] in available <==> v[i] in window
    ensures v[i] !in available ==> WindowAt(v, w, i + 1, lo, window + [v[i]], available + {v[i]})
  {
    if v[i] !in available {
      AddNewest(window, available, v[i]);
      assert window + [v[i]] == v[lo..i + 1];
    }
  }

  /** One value of the loop: it either decides the result or moves the
      window on by one. */
  method Slide(v: seq<int>, w: nat, i: nat, distinct: bool, window: seq<int>, available: set<int>, ghost lo: nat)
    returns (done: bool, r: Result<int>, window': seq<int>, available': set<int>, ghost lo': nat)
    requires i < |v| && WindowAt(v, w, i, lo, window, available)
    ensures done ==> r == FindFrom(v, w, i, distinct)
    ensures !done ==>
      WindowAt(v, w, i + 1, lo', window', available') &&
      FindFrom(v, w, i + 1, distinct) == FindFrom(v, w, i, distinct)
  {
    var it := v[i];
    FindStep(v, w, i, distinct, window);
    window', available', lo' := window, available, lo;
    r := Err("Duplicate value");
    if |window| == w {
      var found := Found(window, available, it, distinct);
      FoundIsCheck(window, available, it, distinct);
      if !found {
        return true, Ok(it), window', available', lo';
      }
      PendingFull(v, w, i, lo, window, available);
      available' := available - {window[0]};
      window' := window[1..];
      lo' := lo + 1;
    } else {
      PendingShort(v, w, i, lo, window, available);
    }
    PendingAdd(v, w, i, lo', window', available');
    if it in available' {
      return true, r, window', available', lo';
    }
    window' := window' + [it];
    available' := available' + {it};
    done := false;
  }

  /** `FindFrom` at value i, read off the window of the values before it. */
  lemma FindStep(v: seq<int>, w: nat, i: nat, distinct: bool, window: seq<int>)
    requires i < |v| && window == v[WinStart(i, w)..i]
    ensures FindFrom(v, w, i, distinct) ==
      if |window| == w && !Check(window, v[i], distinct) then Ok(v[i])
      else if v[i] in (if |window| == w then window[1..] else window) then Err("Duplicate value")
      else FindFrom(v, w, i + 1, distinct)
  {
    if i >= w {
      assert |window| == w && window == v[i - w..i];
      if w > 0 {
        assert window[1..] == v[i - w + 1..i];
      }
    }
  }

  lemma AddNewest(window: seq<int>, available: set<int>, it: int)
    requires DistinctValues(window) && available == Elements(window) && it !in available
    ensures DistinctValues(window + [it]) && Elements(window + [it]) == available + {it}
  {
  }

  /** Removing the oldest value of a window of distinct values from its set
      leaves the set of the remaining window. */
  lemma DropOldest(window: seq<int>, available: set<int>)
    requires window != [] && DistinctValues(window) && available == Elements(window)
    ensures Elements(window[1..]) == available - {window[0]}
    ensures DistinctValues(window[1..])
  {
    assert window == [window[0]] + window[1..];
    assert window[0] !in window[1..];
  }

  method Find(v: seq<int>, w: nat) returns (r: Result<int>)
    ensures r == FindFrom(v, w, 0, false)
  {
    r := FindWith(v, w, false);
  }

  method FindDistinct(v: seq<int>, w: nat) returns (r: Result<int>)
    ensures r == FindFrom(v, w, 0, true)
  {
    r := FindWith(v, w, true);
  }

  /** A found value comes after a full window, fails the rule against it,
      and every earlier value with a full window passed the rule. */
  lemma {:induction false} FindResult(v: seq<int>, w: nat, i: nat, distinct: bool, t: int)
    requires i <= |v| && FindFrom(v, w, i, distinct) == Ok(t)
    ensures exists k :: FirstFailure(v, w, i, distinct, k, t)
    decreases |v| - i
  {
    if i >= w && !Check(v[i - w..i], v[i], distinct) {
      assert FirstFailure(v, w, i, distinct, i, t);
    } else {
      FindResult(v, w, i + 1, distinct, t);
      var k :| FirstFailure(v, w, i + 1, distinct, k, t);
      assert FirstFailure(v, w, i, distinct, k, t);
    }
  }

  /** From i on, k is the first position with a full window that fails the
      rule, and it holds t. */
  predicate FirstFailure(v: seq<int>, w: nat, i: nat, distinct: bool, k: int, t: int)
  {
    && i <= k < |v| && w <= k && v[k] == t && !Check(v[k - w..k], t, distinct)
    && forall m :: i <= m < k && w <= m ==> Check(v[m - w..m], v[m], distinct)
  }

  /** Under the source's rule, t matches iff two window positions, possibly
      the same one, sum to t. */
  lemma MatchedMeaning(win: seq<int>, t: int)
    ensures Matched(win, t) <==> exists j, k :: 0 <= j < |win| && 0 <= k < |win| && win[j] + win[k] == t
  {
    if Matched(win, t) {
      var j :| 0 <= j < |win| && t - win[j] in win;
      var k :| 0 <= k < |win| && win[k] == t - win[j];
      assert win[j] + win[k] == t;
    }
  }

  /** Under the puzzle's rule, for a window of distinct values, t matches
      iff two different window positions sum to t. */
  lemma MatchedDistinctMeaning(win: seq<int>, t: int)
    requires DistinctValues(win)
    ensures MatchedDistinct(win, t) <==>
      exists j, k :: 0 <= j < |win| && 0 <= k < |win| && j != k && win[j] + win[k] == t
  {
    if MatchedDistinct(win, t) {
      var j :| 0 <= j < |win| && t - win[j] in win && t - win[j] != win[j];
      var k :| 0 <= k < |win| && win[k] == t - win[j];
      assert j != k && win[j] + win[k] == t;
    }
    if exists j, k :: 0 <= j < |win| && 0 <= k < |win| && j != k && win[j] + win[k] == t {
      var j, k :| 0 <= j < |win| && 0 <= k < |win| && j != k && win[j] + win[k] == t;
      assert win[k] != win[j] by {
        if j < k { } else { }
      }
      assert t - win[j] == win[k];
    }
  }

  /** The window 1, 2, 4, 8, 16 has no two different values summing to 32,
      but the source's test accepts 32 as 16 + 16, so `find` reports no
      mismatch where the puzzle's rule reports 32. */
  lemma DoubledValueMatches()
    ensures Matched([1, 2, 4, 8, 16], 32) && !MatchedDistinct([1, 2, 4, 8, 16], 32)
    ensures FindFrom([1, 2, 4, 8, 16, 32], 5, 0, false).Err?
    ensures FindFrom([1, 2, 4, 8, 16, 32], 5, 0, true) == Ok(32)
  {
    var win := [1, 2, 4, 8, 16];
    assert 32 - win[4] in win;
    var v := [1, 2, 4, 8, 16, 32];
    assert v[0..5] == win;
    assert v[5] !in v[1..5];
    assert FindFrom(v, 5, 5, false).Err?;
    assert FindFrom(v, 5, 4, false).Err?;
    assert FindFrom(v, 5, 3, false).Err?;
    assert FindFrom(v, 5, 2, false).Err?;
    assert FindFrom(v, 5, 1, false).Err?;
    assert FindFrom(v, 5, 5, true) == Ok(32);
    assert FindFrom(v, 5, 4, true) == Ok(32);
    assert FindFrom(v, 5, 3, true) == Ok(32);
    assert FindFrom(v, 5, 2, true) == Ok(32);
    assert FindFrom(v, 5, 1, true) == Ok(32);
  }

  // ---------------------------------------------------------------------
  // Part2

  lemma SliceSum(v: seq<int>, a: nat, m: nat, b: nat)
    requires a <= m <= b <= |v|
    ensures Sum(v[a..b]) == Sum(v[a..m]) + Sum(v[m..b])
  {
    assert v[a..b] == v[a..m] + v[m..b];
    SumAppend(v[a..m], v[m..b]);
  }

  lemma {:induction false} PositiveSum(s: seq<int>)
    requires s != [] && forall k :: 0 <= k < |s| ==> s[k] > 0
    ensures Sum(s) > 0
  {
    if |s| > 1 {
      PositiveSum(s[..|s| - 1]);
    }
  }

  predicate Positive(v: seq<int>)
  {
    forall k :: 0 <= k < |v| ==> v[k] > 0
  }

  /** A contiguous run of at least two values summing to target. */
  ghost predicate RunAt(v: seq<int>, target: int, a: nat, b: nat)
  {
    a + 2 <= b <= |v| && Sum(v[a..b]) == target
  }

  /** Every window starting before lo and ending at hi sums above target. */
  ghost predicate AboveFrom(v: seq<int>, target: int, lo: nat, hi: nat)
    requires lo <= hi <= |v|
  {
    forall a :: 0 <= a < lo ==> Sum(v[a..hi]) > target
  }

  /** No run of two or more ending at or before hi sums to target. */
  ghost predicate NoRunBefore(v: seq<int>, target: int, hi: nat)
  {
    forall a: nat, b: nat :: b <= hi ==> !RunAt(v, target, a, b)
  }

  /** v[a..b] is a run summing to target, for positive values the one that
      ends first, and x is its smallest plus its largest value. */
  ghost predicate EarliestRun(v: seq<int>, target: int, a: nat, b: nat, x: int)
  {
    && RunAt(v, target, a, b)
    && (Positive(v) ==> NoRunBefore(v, target, b - 1))
    && x == Min(v[a..b]) + Max(v[a..b])
  }

  lemma ExtendAbove(v: seq<int>, target: int, lo: nat, hi: nat)
    requires Positive(v) && lo <= hi < |v| && AboveFrom(v, target, lo, hi)
    ensures AboveFrom(v, target, lo, hi + 1)
  {
    var hi' := hi + 1;
    forall a | 0 <= a < lo ensures Sum(v[a..hi']) > target {
      SliceSum(v, a, hi, hi');
      assert v[hi..hi'] == [v[hi]];
    }
  }

  lemma CloseRuns(v: seq<int>, target: int, lo: nat, hi: nat)
    requires Positive(v) && 0 < hi <= |v| && lo <= hi
    requires NoRunBefore(v, target, hi - 1) && AboveFrom(v, target, lo, hi)
    requires Sum(v[lo..hi]) <= target && !(Sum(v[lo..hi]) == target && hi - lo > 1)
    ensures NoRunBefore(v, target, hi)
  {
    forall a: nat, b: nat | b <= hi ensures !RunAt(v, target, a, b) {
      if b == hi && a > lo && a + 2 <= b {
        SliceSum(v, lo, a, b);
        PositiveSum(v[lo..a]);
      }
    }
  }

  /** For positive values at most one run ends at a given position, so the
      earliest-ending run, and with it Part2's answer, is determined. */
  lemma RunUnique(v: seq<int>, target: int, a: nat, a': nat, b: nat)
    requires Positive(v) && RunAt(v, target, a, b) && RunAt(v, target, a', b)
    ensures a == a'
  {
    if a < a' {
      SliceSum(v, a, a', b);
      PositiveSum(v[a..a']);
    } else if a' < a {
      SliceSum(v, a', a, b);
      PositiveSum(v[a'..a]);
    }
  }

  /** The inner `while (sum > match)` loop: drop values from the front of
      the window v[lo..hi] until its sum is at most the target; false when
      the window runs empty first (`removeFirst` on an empty deque), which
      only a negative target allows. */
  method DropWhileAbove(v: seq<int>, target: int, lo: nat, hi: nat, window: seq<int>, sum: int)
    returns (ok: bool, lo': nat, window': seq<int>, sum': int)
    requires lo <= hi <= |v| && window == v[lo..hi] && sum == Sum(window)
    requires Positive(v) ==> AboveFrom(v, target, lo, hi)
    ensures ok ==> lo <= lo' <= hi && window' == v[lo'..hi] && sum' == Sum(window') && sum' <= target
    ensures ok && Positive(v) ==> AboveFrom(v, target, lo', hi)
    ensures !ok ==> target < 0
  {
    lo', window', sum' := lo, window, sum;
    while sum' > target
      invariant lo <= lo' <= hi
      invariant window' == v[lo'..hi] && sum' == Sum(window')
      invariant Positive(v) ==> AboveFrom(v, target, lo', hi)
      decreases |window'|
    {
      if window' == [] {
        return false, lo', window', sum';
      }
      SliceSum(v, lo', lo' + 1, hi);
      assert v[lo'..lo' + 1] == [v[lo']];
      sum' := sum' - window'[0];
      window' := window'[1..];
      lo' := lo' + 1;
    }
    ok := true;
  }

  /** One step of Part2's scan: v[i] joins the window at the back, then
      values leave it at the front while its sum exceeds the target. */
  method TakeNext(v: seq<int>, target: int, lo: nat, i: nat, window: seq<int>, sum: int)
    returns (ok: bool, lo': nat, window': seq<int>, sum': int)
    requires lo <= i < |v| && window == v[lo..i] && sum == Sum(window)
    requires Positive(v) ==> AboveFrom(v, target, lo, i)
    ensures ok ==> lo <= lo' <= i + 1 && window' == v[lo'..i + 1] && sum' == Sum(window') && sum' <= target
    ensures ok && Positive(v) ==> AboveFrom(v, target, lo', i + 1)
    ensures !ok ==> target < 0
  {
    var grown := window + [v[i]];
    assert grown == v[lo..i + 1];
    SumAppend(window, [v[i]]);
    if Positive(v) {
      ExtendAbove(v, target, lo, i);
    }
    ok, lo', window', sum' := DropWhileAbove(v, target, lo, i + 1, grown, sum + v[i]);
  }

  /** The window the scan stops at is the earliest run. */
  lemma RunFound(v: seq<int>, target: int, lo: nat, hi: nat, window: seq<int>)
    requires lo + 2 <= hi <= |v| && window == v[lo..hi] && Sum(window) == target
    requires Positive(v) ==> NoRunBefore(v, target, hi - 1)
    ensures EarliestRun(v, target, lo, hi, Min(window) + Max(window))
  {
  }

  /** Part2's scan: add each value to the window, drop from the front while
      the sum exceeds the target, and stop at a window of two or more
      summing to it. Dropping from an empty window (possible only for a
      negative target) throws. None is "No sequence matched". For positive
      values the scan misses no run. */
  method Contiguous(v: seq<int>, target: int) returns (r: Result<Option<int>>)
    ensures r.Ok? && r.value.Some? ==> exists a: nat, b: nat :: EarliestRun(v, target, a, b, r.value.value)
    ensures Positive(v) && r == Ok(None) ==> NoRunBefore(v, target, |v|)
    ensures target >= 0 ==> r.Ok?
  {
    var window: seq<int> := [];
    var sum := 0;
    var lo := 0;
    var i := 0;
    while i < |v|
      invariant 0 <= lo <= i <= |v|
      invariant window == v[lo..i] && sum == Sum(window)
      invariant Positive(v) ==> AboveFrom(v, target, lo, i) && NoRunBefore(v, target, i)
    {
      var hi := i + 1;
      var ok;
      ok, lo, window, sum := TakeNext(v, target, lo, i, window, sum);
      if !ok {
        return Err("NoSuchElementException");
      }
      if sum == target && |window| > 1 {
        RunFound(v, target, lo, hi, window);
        return Ok(Some(Min(window) + Max(window)));
      }
      if Positive(v) {
        CloseRuns(v, target, lo, hi);
      }
      i := i + 1;
    }
    r := Ok(None);
  }

  /** Part2: the run is searched for the value `find` reports, under the
      puzzle's rule; its exception is Part2's exception. */
  method Part2(v: seq<int>, w: nat) returns (r: Result<Option<int>>)
    ensures FindFrom(v, w, 0, true).Err? ==> r.Err?
    ensures r.Ok? && r.value.Some? ==> exists a: nat, b: nat :: EarliestRun(v, FindFrom(v, w, 0, true).value, a, b, r.value.value)
    ensures Positive(v) && r == Ok(None) ==> NoRunBefore(v, FindFrom(v, w, 0, true).value, |v|)
  {
    var m := FindDistinct(v, w);
    if m.Err? {
      return Err(m.msg);
    }
    r := Contiguous(v, m.value);
  }
}
