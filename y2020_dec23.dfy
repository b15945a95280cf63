/** Crab Cups (2020 day 23).  Cups labelled `lo..hi` sit in a circle; a
    round lifts the three cups after the current one, puts them back right
    after the destination cup, and moves the current position on by one.
    The circle is a map from each label to the label after it (the source
    keeps nodes and a label-to-node index; the map is the two combined). */
module Y2020Dec23 {
  import opened Common

  /** The labels `a, a + 1, ..., b - 1`. */
  function Range(a: int, b: int): (r: seq<int>)
    decreases b - a
    ensures |r| == if a <= b then b - a else 0
    ensures forall i :: 0 <= i < |r| ==> r[i] == a + i
  {
    if a >= b then [] else [a] + Range(a + 1, b)
  }

  predicate Distinct(s: seq<int>)
  {
    forall i, j :: 0 <= i < j < |s| ==> s[i] != s[j]
  }

  lemma {:induction false} DistinctCount(s: seq<int>, x: int)
    requires Distinct(s)
    ensures multiset(s)[x] <= 1
  {
    if s != [] {
      assert s == [s[0]] + s[1..];
      assert s[0] !in s[1..];
      DistinctCount(s[1..], x);
    }
  }

  /** Rearranging a sequence keeps it free of repeats. */
  lemma DistinctPerm(a: seq<int>, b: seq<int>)
    requires Distinct(a) && multiset(a) == multiset(b)
    ensures Distinct(b)
  {
    forall i, j | 0 <= i < j < |b| ensures b[i] != b[j] {
      var x := b[i];
      DistinctCount(a, x);
      assert b == b[..j] + b[j..];
      assert x in b[..j];
      assert multiset(b)[x] == multiset(b[..j])[x] + multiset(b[j..])[x];
      assert multiset(b[j..])[x] == 0;
      assert b[j] in b[j..];
    }
  }

  /** `s` lists each label of `lo..hi` exactly once. */
  predicate IsCycleOf(s: seq<int>, lo: int, hi: int)
  {
    |s| == hi - lo + 1 && Distinct(s) &&
    (forall i :: 0 <= i < |s| ==> lo <= s[i] <= hi) &&
    (forall x :: lo <= x <= hi ==> x in s)
  }

  /** A rearrangement of a circle's labels is again a circle of them. */
  lemma CyclePerm(a: seq<int>, b: seq<int>, lo: int, hi: int)
    requires IsCycleOf(a, lo, hi) && multiset(a) == multiset(b)
    ensures IsCycleOf(b, lo, hi)
  {
    DistinctPerm(a, b);
    assert |multiset(a)| == |a| && |multiset(b)| == |b|;
    forall x | lo <= x <= hi ensures x in b {
      assert x in a;
      assert x in multiset(a);
    }
    forall i | 0 <= i < |b| ensures lo <= b[i] <= hi {
      assert b[i] in multiset(a);
    }
  }

  /** The source's callers pass every label of `m .. m + |initial| - 1` once,
      where `m` is the smallest, and at least four cups in all. */
  predicate Playable(initial: seq<int>, totalSize: int)
  {
    initial != [] && IsCycleOf(initial, Min(initial), Min(initial) + |initial| - 1) &&
    |initial| <= totalSize && 4 <= totalSize
  }

  /** The circle the source builds, read from the first cup: the initial
      labels in order, then `max(initial) + 1` up to `max`. */
  function Layout(initial: seq<int>, totalSize: int): seq<int>
    requires initial != []
  {
    initial + Range(Max(initial) + 1, totalSize + Min(initial))
  }

  lemma LayoutIsCycle(initial: seq<int>, totalSize: int)
    requires Playable(initial, totalSize)
    ensures IsCycleOf(Layout(initial, totalSize), Min(initial), totalSize + Min(initial) - 1)
    ensures Layout(initial, totalSize)[..|initial|] == initial
  {
    var top := Min(initial) + |initial| - 1;
    assert top in initial;
    assert Max(initial) == top;
    var l := Layout(initial, totalSize);
    forall i, j | 0 <= i < j < |l| ensures l[i] != l[j] {
      if j < |initial| {
        assert l[i] == initial[i] && l[j] == initial[j];
      }
    }
    forall x | Min(initial) <= x <= totalSize + Min(initial) - 1 ensures x in l {
      if x > top {
        assert l[|initial| + x - top - 1] == x;
      } else {
        assert x in initial;
        var i :| 0 <= i < |initial| && initial[i] == x;
        assert l[i] == x;
      }
    }
  }

  // ---------------------------------------------------------------- destination

  /** One step down from label `v`, wrapping from `lo` (or below) to `hi`. */
  function Down(v: int, lo: int, hi: int): int
  {
    if v <= lo then hi else v - 1
  }

  /** Step down from `v` until the label is not `picked`, at most
      `steps + 1` times. */
  function DestFrom(v: int, picked: seq<int>, lo: int, hi: int, steps: nat): int
    decreases steps
  {
    var d := Down(v, lo, hi);
    if d !in picked || steps == 0 then d else DestFrom(d, picked, lo, hi, steps - 1)
  }

  /** The destination label for current label `cur` when `picked` are lifted. */
  function Dest(cur: int, picked: seq<int>, lo: int, hi: int): int
  {
    DestFrom(cur, picked, lo, hi, 3)
  }

  /** Four steps always suffice: the destination is a label of the circle
      that is not one of the three lifted ones. */
  lemma DestFree(cur: int, picked: seq<int>, lo: int, hi: int)
    requires lo <= cur <= hi && hi - lo >= 3 && |picked| == 3
    ensures lo <= Dest(cur, picked, lo, hi) <= hi
    ensures Dest(cur, picked, lo, hi) !in picked
    ensures hi - lo >= 4 ==> Dest(cur, picked, lo, hi) != cur
  {
    var d1 := Down(cur, lo, hi);
    var d2 := Down(d1, lo, hi);
    var d3 := Down(d2, lo, hi);
    var d4 := Down(d3, lo, hi);
    assert forall x :: x in picked <==> x == picked[0] || x == picked[1] || x == picked[2];
    assert d1 != d2 && d1 != d3 && d1 != d4 && d2 != d3 && d2 != d4 && d3 != d4;
    assert DestFrom(d3, picked, lo, hi, 0) == d4;
  }

  /** The destination is the largest free label below `cur`, or, when every
      label below `cur` is lifted, the largest free label of all. */
  lemma DestNearest(cur: int, picked: seq<int>, lo: int, hi: int)
    requires lo <= cur <= hi && hi - lo >= 3 && |picked| == 3
    ensures var d := Dest(cur, picked, lo, hi);
      (lo <= d < cur && forall x :: d < x < cur ==> x in picked) ||
      (cur <= d && (forall x :: lo <= x < cur ==> x in picked) &&
        forall x :: d < x <= hi ==> x in picked)
  {
    DestFree(cur, picked, lo, hi);
    var d1 := Down(cur, lo, hi);
    var d2 := Down(d1, lo, hi);
    var d3 := Down(d2, lo, hi);
    assert DestFrom(d3, picked, lo, hi, 0) == Down(d3, lo, hi);
  }

  // ---------------------------------------------------------------- circles

  /** The first position of `x` in `s`. */
  function IndexOf(s: seq<int>, x: int): (i: nat)
    requires x in s
    ensures i < |s| && s[i] == x && x !in s[..i]
  {
    if s[0] == x then 0
    else
      var j := IndexOf(s[1..], x);
      assert s[..j + 1] == [s[0]] + s[1..][..j];
      j + 1
  }

  lemma IndexOfDistinct(s: seq<int>, i: int)
    requires Distinct(s) && 0 <= i < |s|
    ensures IndexOf(s, s[i]) == i
  {
  }

  /** The circle `s` read clockwise from cup `x`. */
  function From(s: seq<int>, x: int): (r: seq<int>)
    requires x in s
    ensures |r| == |s| && r[0] == x
  {
    var i := IndexOf(s, x);
    s[i..] + s[..i]
  }

  /** The cup after position `i` of the circle `s`. */
  function CycleNext(s: seq<int>, i: int): int
    requires 0 <= i < |s|
  {
    if i + 1 < |s| then s[i + 1] else s[0]
  }

  /** `next` sends each cup of the circle `s` to the cup after it. */
  predicate Linked(next: map<int, int>, s: seq<int>)
  {
    (forall i :: 0 <= i < |s| ==> s[i] in next) &&
    forall i {:trigger next[s[i]]} :: 0 <= i < |s| ==> next[s[i]] == CycleNext(s, i)
  }

  // ---------------------------------------------------------------- rounds

  /** One round on the circle `order`, read from the current cup: lift the
      three cups after it, put them back after the destination cup, and read
      the new circle from the cup now after the old current one. */
  function Round(order: seq<int>, lo: int, hi: int): seq<int>
    requires |order| >= 4
  {
    var picked := order[1..4];
    var left := [order[0]] + order[4..];
    var d := Dest(order[0], picked, lo, hi);
    if d in left then
      var w := Spliced(left, picked, IndexOf(left, d));
      w[1..] + [w[0]]
    else order
  }

  /** The destination is one of the cups left in the circle. */
  lemma DestLeft(order: seq<int>, lo: int, hi: int)
    requires IsCycleOf(order, lo, hi) && hi - lo >= 3
    ensures Dest(order[0], order[1..4], lo, hi) in [order[0]] + order[4..]
  {
    var d := Dest(order[0], order[1..4], lo, hi);
    DestFree(order[0], order[1..4], lo, hi);
    assert d in order;
    var i :| 0 <= i < |order| && order[i] == d;
    assert forall j :: 1 <= j < 4 ==> order[j] == order[1..4][j - 1];
    if i == 0 {
      assert ([order[0]] + order[4..])[0] == d;
    } else {
      assert ([order[0]] + order[4..])[i - 3] == d;
    }
  }

  /** The new circle of a round, before it is read from the new current
      cup: `picked` put back after position `k` of `left`. */
  function Spliced(left: seq<int>, picked: seq<int>, k: nat): seq<int>
    requires k < |left|
  {
    left[..k + 1] + picked + left[k + 1..]
  }

  lemma SplicedPerm(order: seq<int>, k: nat)
    requires |order| >= 4 && k < |order| - 3
    ensures var w := Spliced([order[0]] + order[4..], order[1..4], k);
      multiset(w[1..] + [w[0]]) == multiset(order)
  {
    var left := [order[0]] + order[4..];
    var w := Spliced(left, order[1..4], k);
    assert left == left[..k + 1] + left[k + 1..];
    assert multiset(left) == multiset(left[..k + 1]) + multiset(left[k + 1..]);
    assert multiset(w) == multiset(left[..k + 1]) + multiset(order[1..4]) + multiset(left[k + 1..]);
    assert order == [order[0]] + order[1..4] + order[4..];
    assert multiset(order) == multiset(left) + multiset(order[1..4]);
    assert w == [w[0]] + w[1..];
    assert multiset(w) == multiset([w[0]]) + multiset(w[1..]);
    assert multiset(w[1..] + [w[0]]) == multiset(w[1..]) + multiset([w[0]]);
    assert multiset(w[1..] + [w[0]]) == multiset(w);
    assert multiset(w) == multiset(left) + multiset(order[1..4]);
  }

  /** A round keeps a single circle over the same labels. */
  lemma RoundIsCycle(order: seq<int>, lo: int, hi: int)
    requires IsCycleOf(order, lo, hi) && hi - lo >= 3
    ensures IsCycleOf(Round(order, lo, hi), lo, hi)
  {
    DestLeft(order, lo, hi);
    var left := [order[0]] + order[4..];
    SplicedPerm(order, IndexOf(left, Dest(order[0], order[1..4], lo, hi)));
    CyclePerm(order, Round(order, lo, hi), lo, hi);
  }

  /** Rotating the spliced circle by one and reading it from the cup at
      `k` gives that cup, `picked`, and the rest of `left` read from it. */
  lemma SplicedFrom(left: seq<int>, picked: seq<int>, k: nat)
    requires k < |left| && |picked| == 3 && left[k] !in left[..k]
    requires var w := Spliced(left, picked, k); Distinct(w[1..] + [w[0]])
    ensures var w := Spliced(left, picked, k); var r := w[1..] + [w[0]];
      left[k] in r && From(r, left[k]) == [left[k]] + picked + From(left, left[k])[1..]
  {
    assert IndexOf(left, left[k]) == k;
    if k == 0 {
      SplicedFromFirst(left, picked);
    } else {
      SplicedFromLater(left, picked, k);
    }
  }

  lemma SplicedFromFirst(left: seq<int>, picked: seq<int>)
    requires 0 < |left| && |picked| == 3
    requires var w := Spliced(left, picked, 0); Distinct(w[1..] + [w[0]])
    ensures var w := Spliced(left, picked, 0); var r := w[1..] + [w[0]];
      left[0] in r && From(r, left[0]) == [left[0]] + picked + left[1..]
  {
    var w := Spliced(left, picked, 0);
    var r := w[1..] + [w[0]];
    assert r[|r| - 1] == left[0];
    IndexOfDistinct(r, |r| - 1);
    assert From(r, left[0]) == [left[0]] + r[..|r| - 1];
  }

  lemma SplicedFromLater(left: seq<int>, picked: seq<int>, k: nat)
    requires 0 < k < |left| && |picked| == 3
    requires var w := Spliced(left, picked, k); Distinct(w[1..] + [w[0]])
    ensures var w := Spliced(left, picked, k); var r := w[1..] + [w[0]];
      left[k] in r && From(r, left[k]) == [left[k]] + picked + left[k + 1..] + left[..k]
  {
    var d := left[k];
    var w := Spliced(left, picked, k);
    var r := w[1..] + [w[0]];
    assert r[k - 1] == d;
    IndexOfDistinct(r, k - 1);
    assert From(r, d) == r[k - 1..] + r[..k - 1];
    assert r[k - 1..] == [d] + picked + left[k + 1..] + [left[0]];
    assert r[..k - 1] == left[1..k];
    assert left[..k] == [left[0]] + left[1..k];
  }

  /** Read from the destination, the new circle is the destination, the
      three lifted cups in their old order, and then the cups that were left,
      in their old order. */
  lemma RoundInserts(order: seq<int>, lo: int, hi: int)
    requires IsCycleOf(order, lo, hi) && hi - lo >= 3
    ensures var d := Dest(order[0], order[1..4], lo, hi);
      var r := Round(order, lo, hi);
      var left := [order[0]] + order[4..];
      d in left && d in r && From(r, d) == [d] + order[1..4] + From(left, d)[1..]
  {
    var left := [order[0]] + order[4..];
    var d := Dest(order[0], order[1..4], lo, hi);
    DestLeft(order, lo, hi);
    RoundIsCycle(order, lo, hi);
    SplicedFrom(left, order[1..4], IndexOf(left, d));
  }

  /** After a round the old current cup sits just before the new current
      cup; with five cups or more the new current cup is the one that
      followed the three lifted cups. */
  lemma RoundCurrent(order: seq<int>, lo: int, hi: int)
    requires IsCycleOf(order, lo, hi) && hi - lo >= 3
    ensures var r := Round(order, lo, hi);
      |r| == |order| && r[|r| - 1] == order[0] &&
      (|order| >= 5 ==> r[0] == order[4]) &&
      (|order| == 4 ==> r[0] == order[1])
  {
    var picked := order[1..4];
    var left := [order[0]] + order[4..];
    var d := Dest(order[0], picked, lo, hi);
    DestLeft(order, lo, hi);
    DestFree(order[0], picked, lo, hi);
    var k := IndexOf(left, d);
    if |order| >= 5 {
      assert k != 0;
    }
  }

  /** `n` rounds; the circle stays a circle over the same labels. */
  function Rounds(order: seq<int>, lo: int, hi: int, n: nat): (r: seq<int>)
    requires IsCycleOf(order, lo, hi) && hi - lo >= 3
    ensures IsCycleOf(r, lo, hi)
    decreases n
  {
    if n == 0 then order
    else
      var before := Rounds(order, lo, hi, n - 1);
      RoundIsCycle(before, lo, hi);
      Round(before, lo, hi)
  }

  // ---------------------------------------------------------------- links

  /** `n` cups read along the circle `s` from position `i` (none when `n`
      is not positive); the read wraps round the circle. */
  function Walk(s: seq<int>, i: int, n: int): seq<int>
    requires 0 <= i < |s|
    decreases n
  {
    if n <= 0 then [] else [s[i]] + Walk(s, if i + 1 < |s| then i + 1 else 0, n - 1)
  }

  /** Up to a full turn, a walk reads the circle from its start. */
  lemma {:induction false} WalkFrom(s: seq<int>, i: int, n: int)
    requires 0 <= i < |s| && 0 <= n <= |s|
    ensures Walk(s, i, n) == (s[i..] + s[..i])[..n]
    decreases n
  {
    if n > 0 {
      var j := if i + 1 < |s| then i + 1 else 0;
      WalkFrom(s, j, n - 1);
      var r := s[i..] + s[..i];
      RotateStep(s, i);
      assert r[..n] == [r[0]] + r[1..][..n - 1];
    }
  }

  /** Position m of the circle `s` read from position i. */
  lemma RotateIndex(s: seq<int>, i: int, m: int)
    requires 0 <= i < |s| && 0 <= m < |s|
    ensures (s[i..] + s[..i])[m] == if i + m < |s| then s[i + m] else s[i + m - |s|]
  {
  }

  /** Reading from position i, then dropping the first cup, is reading
      from the next position, short of its last cup. */
  lemma RotateStep(s: seq<int>, i: int)
    requires 0 <= i < |s|
    ensures var j := if i + 1 < |s| then i + 1 else 0;
      (s[i..] + s[..i])[1..] == (s[j..] + s[..j])[..|s| - 1]
  {
    var j := if i + 1 < |s| then i + 1 else 0;
    var r, r' := s[i..] + s[..i], s[j..] + s[..j];
    forall k | 0 <= k < |s| - 1 ensures r[1..][k] == r'[..|s| - 1][k] {
      RotateIndex(s, i, k + 1);
      RotateIndex(s, j, k);
    }
  }

  /** Linking is a property of the circle, not of where it is read from. */
  lemma LinkedRotate(next: map<int, int>, w: seq<int>)
    requires |w| > 0 && Linked(next, w)
    ensures Linked(next, w[1..] + [w[0]])
  {
    var r := w[1..] + [w[0]];
    forall i | 0 <= i < |r| ensures r[i] in next && next[r[i]] == CycleNext(r, i) {
      if i + 1 < |r| {
        assert r[i] == w[i + 1];
      } else {
        assert r[i] == w[0];
      }
    }
  }

  /** Where position `p` of the spliced circle came from in `order`. */
  function SplicedSource(k: nat, p: nat): nat
  {
    if p == 0 then 0 else if p <= k then p + 3 else if p <= k + 3 then p - k else p
  }

  /** The three pointer writes of a round, with destination `d`: the
      current cup is linked past the lifted cups, the last lifted cup to the
      cup after `d`, and `d` to the first lifted cup. */
  function Rewired(next: map<int, int>, order: seq<int>, d: int): map<int, int>
    requires |order| >= 4 && order[3] in next && d in next
  {
    var n1 := next[order[0] := next[order[3]]];
    n1[order[3] := n1[d]][d := order[1]]
  }

  /** The facts shared by the cases of `Relink`: `d` sits at position `k` of
      the cups left after lifting three. */
  predicate SpliceAt(next: map<int, int>, order: seq<int>, k: nat, d: int)
  {
    |order| >= 4 && Distinct(order) && Linked(next, order) && k < |order| - 3 &&
    d == order[SplicedSource(k, k)]
  }

  lemma SplicedAt(order: seq<int>, k: nat, p: nat)
    requires |order| >= 4 && k < |order| - 3 && p < |order|
    ensures Spliced([order[0]] + order[4..], order[1..4], k)[p] == order[SplicedSource(k, p)]
  {
  }

  /** A cup that no write touches keeps its link, and its successor is
      unchanged by the splice. */
  lemma RelinkOther(next: map<int, int>, order: seq<int>, k: nat, d: int, p: nat)
    requires SpliceAt(next, order, k, d) && p < |order| && p != 0 && p != k && p != k + 3
    ensures var w := Spliced([order[0]] + order[4..], order[1..4], k);
      var n := Rewired(next, order, d);
      w[p] in n && n[w[p]] == CycleNext(w, p)
  {
    var w := Spliced([order[0]] + order[4..], order[1..4], k);
    var q := SplicedSource(k, p);
    SplicedAt(order, k, p);
    assert next[order[q]] == CycleNext(order, q);
    if p + 1 < |w| {
      SplicedAt(order, k, p + 1);
    } else {
      SplicedAt(order, k, 0);
    }
    assert order[q] != order[0] && order[q] != order[3] && order[q] != d;
  }

  /** The destination now leads to the first lifted cup. */
  lemma RelinkDest(next: map<int, int>, order: seq<int>, k: nat, d: int)
    requires SpliceAt(next, order, k, d)
    ensures var w := Spliced([order[0]] + order[4..], order[1..4], k);
      var n := Rewired(next, order, d);
      w[k] in n && n[w[k]] == CycleNext(w, k)
  {
    SplicedAt(order, k, k);
    SplicedAt(order, k, k + 1);
  }

  /** The current cup, when it is not the destination, leads past the lifted
      cups. */
  lemma RelinkCurrent(next: map<int, int>, order: seq<int>, k: nat, d: int)
    requires SpliceAt(next, order, k, d) && k != 0
    ensures var w := Spliced([order[0]] + order[4..], order[1..4], k);
      var n := Rewired(next, order, d);
      w[0] in n && n[w[0]] == CycleNext(w, 0)
  {
    SplicedAt(order, k, 0);
    SplicedAt(order, k, 1);
    assert next[order[3]] == CycleNext(order, 3);
  }

  /** The last lifted cup leads to the cup that followed the destination. */
  lemma RelinkLast(next: map<int, int>, order: seq<int>, k: nat, d: int)
    requires SpliceAt(next, order, k, d)
    ensures var w := Spliced([order[0]] + order[4..], order[1..4], k);
      var n := Rewired(next, order, d);
      w[k + 3] in n && n[w[k + 3]] == CycleNext(w, k + 3)
  {
    var w := Spliced([order[0]] + order[4..], order[1..4], k);
    SplicedAt(order, k, k + 3);
    if k + 4 < |w| {
      SplicedAt(order, k, k + 4);
    } else {
      SplicedAt(order, k, 0);
    }
    if k == 0 {
      assert next[order[3]] == CycleNext(order, 3);
    } else {
      assert next[d] == CycleNext(order, k + 3);
    }
  }

  /** The pointer writes of a round link the new circle. */
  lemma Relink(next: map<int, int>, order: seq<int>, lo: int, hi: int)
    requires IsCycleOf(order, lo, hi) && hi - lo >= 3 && Linked(next, order)
    ensures Dest(order[0], order[1..4], lo, hi) in next
    ensures Linked(Rewired(next, order, Dest(order[0], order[1..4], lo, hi)), Round(order, lo, hi))
  {
    var left := [order[0]] + order[4..];
    var d := Dest(order[0], order[1..4], lo, hi);
    DestLeft(order, lo, hi);
    var k := IndexOf(left, d);
    assert d == order[SplicedSource(k, k)];
    var w := Spliced(left, order[1..4], k);
    var n := Rewired(next, order, d);
    forall p | 0 <= p < |w| ensures w[p] in n && n[w[p]] == CycleNext(w, p) {
      if p == k {
        RelinkDest(next, order, k, d);
      } else if p == 0 {
        RelinkCurrent(next, order, k, d);
      } else if p == k + 3 {
        RelinkLast(next, order, k, d);
      } else {
        RelinkOther(next, order, k, d, p);
      }
    }
    LinkedRotate(n, w);
  }

  /** A sound circle: at least four labels `lo..hi`, each once in `order`
      (read from `cur`), each linked by `next` to the cup after it, and the
      labels are exactly the keys of `next`. */
  ghost predicate Circle(lo: int, hi: int, next: map<int, int>, cur: int, order: seq<int>)
  {
    hi - lo >= 3 && IsCycleOf(order, lo, hi) && order[0] == cur && Linked(next, order) &&
    forall v :: v in next <==> lo <= v <= hi
  }

  /** The labels the constructor links after the first one. */
  function LayoutRest(initial: seq<int>, totalSize: int): seq<int>
    requires initial != []
  {
    initial[1..] + Range(Max(initial) + 1, totalSize + Min(initial))
  }

  lemma LayoutSplit(initial: seq<int>, totalSize: int)
    requires initial != []
    ensures Layout(initial, totalSize) == [initial[0]] + LayoutRest(initial, totalSize)
  {
    var r := Range(Max(initial) + 1, totalSize + Min(initial));
    assert initial == [initial[0]] + initial[1..];
    assert [initial[0]] + (initial[1..] + r) == ([initial[0]] + initial[1..]) + r;
  }

  /** `links` takes each label of `l` but the last, `prev`, to the one
      after it, and holds no other label. */
  ghost predicate Chained(l: seq<int>, links: map<int, int>, prev: int)
  {
    l != [] && prev == l[|l| - 1] &&
    (forall j :: 0 <= j < |l| - 1 ==> l[j] in links) &&
    (forall j {:trigger links[l[j]]} :: 0 <= j < |l| - 1 ==> links[l[j]] == l[j + 1]) &&
    forall v :: v in links ==> v in l
  }

  /** Closing a linked chain over a circle's labels gives a sound circle. */
  lemma CloseRing(l: seq<int>, lo: int, hi: int, links: map<int, int>, prev: int)
    requires hi - lo >= 3 && IsCycleOf(l, lo, hi) && Chained(l, links, prev)
    ensures Circle(lo, hi, links[prev := l[0]], l[0], l)
  {
    CloseLinks(l, links, prev);
    CloseKeys(l, lo, hi, links, prev, links[prev := l[0]]);
  }

  /** The closing link sends the last label back to the first. */
  lemma CloseLinks(l: seq<int>, links: map<int, int>, prev: int)
    requires Distinct(l) && Chained(l, links, prev)
    ensures Linked(links[prev := l[0]], l)
  {
    var n := links[prev := l[0]];
    forall j | 0 <= j < |l| ensures l[j] in n && n[l[j]] == CycleNext(l, j) {
      if j < |l| - 1 {
        assert l[j] != l[|l| - 1];
        assert links[l[j]] == l[j + 1];
      }
    }
  }

  /** After the closing link the labels linked are exactly the circle's. */
  lemma CloseKeys(l: seq<int>, lo: int, hi: int, links: map<int, int>, prev: int, n: map<int, int>)
    requires IsCycleOf(l, lo, hi) && Chained(l, links, prev) && n == links[prev := l[0]]
    ensures forall v :: v in n <==> lo <= v <= hi
  {
    forall v ensures v in n <==> lo <= v <= hi {
      if v in l {
        var j :| 0 <= j < |l| && l[j] == v;
      }
    }
  }

  /** The circle the constructor links up is sound. */
  lemma CloseCircle(initial: seq<int>, totalSize: int, links: map<int, int>, prev: int)
    requires Playable(initial, totalSize)
    requires Chained(Layout(initial, totalSize), links, prev)
    ensures Circle(Min(initial), totalSize + Min(initial) - 1, links[prev := initial[0]], initial[0],
      Layout(initial, totalSize))
  {
    var l := Layout(initial, totalSize);
    LayoutIsCycle(initial, totalSize);
    assert l[0] == initial[0];
    CloseRing(l, Min(initial), totalSize + Min(initial) - 1, links, prev);
  }

  lemma PushFront(r: seq<int>, x: int, w: seq<int>)
    ensures (r + [x]) + w == r + ([x] + w)
  {
  }

  /** One more cup read along a sound circle. */
  lemma WalkStep(lo: int, hi: int, next: map<int, int>, cur: int, order: seq<int>, p: int, n: int)
    requires Circle(lo, hi, next, cur, order) && 0 <= p < |order| && n > 0
    ensures var q := if p + 1 < |order| then p + 1 else 0;
      next[order[p]] == order[q] && Walk(order, p, n) == [order[p]] + Walk(order, q, n - 1)
  {
  }

  /** A round's pointer writes keep the circle sound, with the new circle
      read from the cup now after the old current one. */
  lemma CircleRound(lo: int, hi: int, next: map<int, int>, cur: int, order: seq<int>)
    requires Circle(lo, hi, next, cur, order)
    ensures Dest(order[0], order[1..4], lo, hi) in next
    ensures var n := Rewired(next, order, Dest(order[0], order[1..4], lo, hi));
      Circle(lo, hi, n, n[order[0]], Round(order, lo, hi)) && n.Keys == next.Keys
  {
    var d := Dest(order[0], order[1..4], lo, hi);
    Relink(next, order, lo, hi);
    RoundIsCycle(order, lo, hi);
    RoundCurrent(order, lo, hi);
    var n := Rewired(next, order, d);
    var r := Round(order, lo, hi);
    assert n[order[0]] == CycleNext(r, |r| - 1);
    RewiredKeys(next, order, d);
  }

  lemma RewiredKeys(next: map<int, int>, order: seq<int>, d: int)
    requires |order| >= 4 && order[0] in next && order[3] in next && d in next
    ensures Rewired(next, order, d).Keys == next.Keys
  {
  }

  /** The three cups after the current one are the ones after it in the
      circle. */
  lemma SliceAfter(lo: int, hi: int, next: map<int, int>, cur: int, order: seq<int>)
    requires Circle(lo, hi, next, cur, order)
    ensures next[cur] in order && Walk(order, IndexOf(order, next[cur]), 3) == order[1..4]
  {
    assert next[order[0]] == CycleNext(order, 0);
    IndexOfDistinct(order, 1);
  }

  /** The destination search of a round: step down from `cur`, wrapping
      from `lo` to `hi`, until the label is not one of `slice`. */
  method Destination(cur: int, slice: seq<int>, lo: int, hi: int) returns (destVal: int)
    requires lo <= cur <= hi && hi - lo >= 3 && |slice| == 3
    ensures destVal == Dest(cur, slice, lo, hi)
  {
    DestFree(cur, slice, lo, hi);
    destVal := cur;
    ghost var k := 0;
    while true
      invariant 0 <= k <= 3 && DestFrom(destVal, slice, lo, hi, 3 - k) == Dest(cur, slice, lo, hi)
      decreases 3 - k
    {
      destVal := if destVal <= lo then hi else destVal - 1;
      if destVal !in slice {
        break;
      }
      k := k + 1;
    }
  }

  /** The node index the constructor links: the layout's labels in order
      and the last back to the first. */
  method Build(initial: seq<int>, totalSize: int) returns (links: map<int, int>)
    requires Playable(initial, totalSize)
    ensures Circle(Min(initial), totalSize + Min(initial) - 1, links, initial[0], Layout(initial, totalSize))
  {
    LayoutIsCycle(initial, totalSize);
    LayoutSplit(initial, totalSize);
    var prev;
    links, prev := LinkChain(initial[0], LayoutRest(initial, totalSize));
    CloseCircle(initial, totalSize, links, prev);
    links := links[prev := initial[0]];
  }

  /** The constructor's loop: each label of `first` then `rest` is linked
      to the one after it; the last label is returned, not yet linked. */
  method LinkChain(first: int, rest: seq<int>) returns (links: map<int, int>, prev: int)
    requires Distinct([first] + rest)
    ensures Chained([first] + rest, links, prev)
  {
    ghost var l := [first] + rest;
    links := map[];
    prev := first;
    var i := 0;
    while i < |rest|
      invariant 0 <= i <= |rest| && prev == l[i]
      invariant forall j :: 0 <= j < i ==> l[j] in links
      invariant forall j {:trigger links[l[j]]} :: 0 <= j < i ==> links[l[j]] == l[j + 1]
      invariant forall v :: v in links ==> v in l
    {
      assert forall j :: 0 <= j < i ==> l[j] != prev;
      links := links[prev := rest[i]];
      prev := rest[i];
      i := i + 1;
    }
  }

  // ---------------------------------------------------------------- the cycle object

  /** The circle of cups.  `next` maps each label to the label of the cup
      after it (it plays the part of the source's node index together with
      the nodes' `next` pointers); `order` is the circle read from `cur`. */
  class CupCycle {
    const lo: int
    const hi: int
    var next: map<int, int>
    var cur: int
    ghost var order: seq<int>

    ghost predicate Valid()
      reads this
    {
      Circle(lo, hi, next, cur, order)
    }

    /** Links the initial labels in order, then `max(initial) + 1` up to
        `totalSize + min - 1`, and the last back to the first. */
    constructor (initial: seq<int>, totalSize: int)
      requires Playable(initial, totalSize)
      ensures lo == Min(initial) && hi == totalSize + Min(initial) - 1
      ensures cur == initial[0] && order == Layout(initial, totalSize)
      ensures Valid()
    {
      lo := Min(initial);
      hi := totalSize + Min(initial) - 1;
      cur := initial[0];
      var links := Build(initial, totalSize);
      next := links;
      order := Layout(initial, totalSize);
    }

    /** `count` labels read along the circle from cup `start`. */
    method Take(start: int, count: int) returns (r: seq<int>)
      requires Valid() && lo <= start <= hi
      ensures start in order && r == Walk(order, IndexOf(order, start), count)
    {
      assert start in order;
      ghost var p := IndexOf(order, start);
      r := [];
      var node := start;
      var i := 0;
      while i < count
        invariant i <= count || i == 0
        invariant 0 <= p < |order| && node == order[p]
        invariant r + Walk(order, p, count - i) == Walk(order, IndexOf(order, start), count)
      {
        WalkStep(lo, hi, next, cur, order, p, count - i);
        ghost var q := if p + 1 < |order| then p + 1 else 0;
        PushFront(r, node, Walk(order, q, count - i - 1));
        r := r + [node];
        node := next[node];
        p := q;
        i := i + 1;
      }
    }

    /** One round: the circle becomes `Round` of the old one, and the node
        index keeps the same labels. */
    method PlayRound()
      requires Valid()
      modifies this
      ensures Valid() && order == Round(old(order), lo, hi)
      ensures next.Keys == old(next.Keys)
    {
      ghost var before := order;
      ghost var links := next;
      var slice := Take(next[cur], 3);
      SliceAfter(lo, hi, next, cur, order);
      next := next[cur := next[slice[2]]];
      var destVal := Destination(cur, slice, lo, hi);
      CircleRound(lo, hi, links, cur, before);
      next := next[slice[2] := next[destVal]];
      next := next[destVal := slice[0]];
      assert next == Rewired(links, before, destVal);
      order := Round(before, lo, hi);
      cur := next[cur];
    }
  }

  // ---------------------------------------------------------------- puzzle input and answers

  /** Each character of the line read with `toInt`; a character that is
      not a decimal digit is a NumberFormatException. */
  function Labels(line: string): (r: Result<seq<int>>)
    ensures r.Ok? ==> (|r.value| == |line| &&
      forall i :: 0 <= i < |line| ==> ParseInt([line[i]]) == Some(r.value[i]))
    ensures r.Err? ==> (r.msg == "NumberFormatException" &&
      exists i :: 0 <= i < |line| && ParseInt([line[i]]) == None)
  {
    if line == [] then Ok([])
    else
      match ParseInt([line[0]])
      case None => Err("NumberFormatException")
      case Some(v) =>
        match Labels(line[1..])
        case Err(m) =>
          assert exists i :: 0 <= i < |line[1..]| && ParseInt([line[1..][i]]) == None;
          Err(m)
        case Ok(vs) => Ok([v] + vs)
  }

  lemma OneChar(c: char)
    ensures ParseInt([c]) == if IsDigit(c) then Some(DigitValue(c)) else None
  {
    var s := [c];
    assert s[0] == c && s[..|s| - 1] == [];
    assert AllDigits(s) <==> IsDigit(c);
    if IsDigit(c) {
      assert DigitsValue(s) == DigitValue(c);
      assert ParseInt(s) == Some(DigitsValue(s));
    } else {
      assert ParseInt(s) == None;
    }
  }

  /** A line reads as labels exactly when it is all digits, one label per
      digit. */
  lemma LabelsDigits(line: string)
    ensures Labels(line).Ok? <==> AllDigits(line)
    ensures Labels(line).Ok? ==> forall i :: 0 <= i < |line| ==> Labels(line).value[i] == DigitValue(line[i])
  {
    forall i | 0 <= i < |line| {
      OneChar(line[i]);
    }
  }

  /** The labels written side by side (`joinToString("")`). */
  function LabelString(labels: seq<int>): string
  {
    if labels == [] then "" else LabelString(labels[..|labels| - 1]) + IntString(labels[|labels| - 1])
  }

  /** Single-digit labels written side by side read back as the same
      labels. */
  lemma {:induction false} LabelStringLabels(labels: seq<int>)
    requires forall i :: 0 <= i < |labels| ==> 0 <= labels[i] <= 9
    ensures Labels(LabelString(labels)) == Ok(labels)
  {
    if labels != [] {
      var init := labels[..|labels| - 1];
      var x := labels[|labels| - 1];
      LabelStringLabels(init);
      var c := DigitChar(x);
      LabelsAppend(LabelString(init), c);
      assert init + [x] == labels;
    }
  }

  /** A label below 10 is written as one digit that reads back as it. */
  lemma DigitChar(x: int) returns (c: char)
    requires 0 <= x <= 9
    ensures IntString(x) == [c] && ParseInt([c]) == Some(x)
  {
    c := ('0' as int + x) as char;
    OneChar(c);
  }

  lemma {:induction false} LabelsAppend(line: string, c: char)
    requires Labels(line).Ok?
    ensures Labels(line + [c]) == match ParseInt([c])
      case None => Err("NumberFormatException")
      case Some(v) => Ok(Labels(line).value + [v])
    decreases |line|
  {
    if line == [] {
      var t := line + [c];
      assert t == [c] && t[1..] == [] && [t[0]] == [c];
      assert Labels(t[1..]) == Ok([]);
      match ParseInt([c])
      case None =>
      case Some(w) =>
        assert Labels(t) == Ok([w] + []);
        assert [w] + [] == [] + [w];
    } else {
      var t := line + [c];
      assert t[1..] == line[1..] + [c];
      assert [t[0]] == [line[0]];
      var v := ParseInt([line[0]]).value;
      var rest := Labels(line[1..]).value;
      assert Labels(line).value == [v] + rest;
      LabelsAppend(line[1..], c);
      match ParseInt([c])
      case None =>
      case Some(w) =>
        assert Labels(t) == Ok([v] + (rest + [w]));
        assert [v] + (rest + [w]) == ([v] + rest) + [w];
    }
  }

  /** Rounds played by each part, and the cup count of part 2. */
  const Moves1 := 100
  const Cups2 := 1_000_000
  const Moves2 := 10_000_000

  /** What the source's callers supply: when the line reads as labels, they
      can be played with `totalSize` cups and cup 1 is among them. */
  predicate Game(line: string, totalSize: int)
  {
    Labels(line).Ok? ==>
      Playable(Labels(line).value, totalSize) &&
      Min(Labels(line).value) <= 1 <= totalSize + Min(Labels(line).value) - 1
  }

  /** The circle after `moves` rounds, read from cup 1. */
  function FinalFromOne(labels: seq<int>, totalSize: int, moves: nat): (r: seq<int>)
    requires Playable(labels, totalSize) && Min(labels) <= 1 <= totalSize + Min(labels) - 1
    ensures |r| == totalSize && r[0] == 1
  {
    LayoutIsCycle(labels, totalSize);
    From(Rounds(Layout(labels, totalSize), Min(labels), totalSize + Min(labels) - 1, moves), 1)
  }

  /** Part 1: after 100 rounds, the labels after cup 1, in order. */
  function Answer1(line: string): Result<string>
    requires Game(line, |line|)
  {
    match Labels(line)
    case Err(m) => Err(m)
    case Ok(labels) => Ok(LabelString(FinalFromOne(labels, |labels|, Moves1)[1..]))
  }

  /** Part 2: with a million cups and ten million rounds, the product of
      the two labels after cup 1. */
  function Answer2(line: string): Result<int>
    requires Game(line, Cups2)
  {
    match Labels(line)
    case Err(m) => Err(m)
    case Ok(labels) =>
      var after := FinalFromOne(labels, Cups2, Moves2);
      Ok(after[1] * after[2])
  }

  /** Read from position `j`, the circle `s` continues with the walk that
      starts one place on. */
  lemma RotateAfter(s: seq<int>, j: int, j1: int)
    requires 0 <= j < |s| && j1 == if j + 1 < |s| then j + 1 else 0
    ensures Walk(s, j1, |s| - 1) == (s[j..] + s[..j])[1..]
  {
    WalkFrom(s, j1, |s| - 1);
    var r := s[j..] + s[..j];
    if j1 == 0 {
      assert s[j1..] + s[..j1] == s;
      assert r[1..] == s[..j];
    } else {
      assert (s[j1..] + s[..j1])[..|s| - 1] == s[j1..] + s[..j];
      assert r[1..] == s[j1..] + s[..j];
    }
  }

  /** Reading on from cup 1: the walk from the cup after it covers the
      rest of the circle, and the two cups after it are the next two. */
  lemma AfterOne(lo: int, hi: int, next: map<int, int>, cur: int, order: seq<int>)
    requires Circle(lo, hi, next, cur, order) && lo <= 1 <= hi
    ensures next[1] in order && next[1] in next
    ensures Walk(order, IndexOf(order, next[1]), |order| - 1) == From(order, 1)[1..]
    ensures next[1] == From(order, 1)[1] && next[next[1]] == From(order, 1)[2]
  {
    assert 1 in order;
    var j := IndexOf(order, 1);
    var j1 := if j + 1 < |order| then j + 1 else 0;
    var j2 := if j1 + 1 < |order| then j1 + 1 else 0;
    assert next[order[j]] == order[j1];
    assert next[order[j1]] == order[j2];
    IndexOfDistinct(order, j1);
    RotateAfter(order, j, j1);
    var f := order[j..] + order[..j];
    assert f[1] == order[j1] && f[2] == order[j2];
  }

  /** `moves` rounds, each the `Round` of the circle before it. */
  method PlayRounds(cups: CupCycle, moves: nat)
    requires cups.Valid()
    modifies cups
    ensures cups.Valid() && cups.order == Rounds(old(cups.order), cups.lo, cups.hi, moves)
  {
    ghost var start := cups.order;
    var i := 0;
    while i < moves
      invariant 0 <= i <= moves && cups.Valid()
      invariant cups.order == Rounds(start, cups.lo, cups.hi, i)
    {
      cups.PlayRound();
      i := i + 1;
    }
  }

  /** Scanning `s` for `x`: a position before `x` that is not `x` leaves
      `x` still ahead. */
  lemma StillAhead(s: seq<int>, x: int, p: int)
    requires x in s && 0 <= p < |s| && (x !in s[..p]) && s[p] != x
    ensures p + 1 < |s| && x !in s[..p + 1]
  {
    assert s[..p + 1] == s[..p] + [s[p]];
  }

  /** A step of the walk to cup 1 that has not reached it stays short of
      it, on the link to the next position. */
  lemma SeekStep(lo: int, hi: int, next: map<int, int>, cur: int, order: seq<int>, p: int)
    requires Circle(lo, hi, next, cur, order) && lo <= 1 <= hi
    requires 0 <= p < |order| && (1 !in order[..p]) && order[p] != 1
    ensures p + 1 < |order| && next[order[p]] == order[p + 1]
    ensures 1 !in order[..p + 1]
  {
    assert 1 in order;
    StillAhead(order, 1, p);
    assert next[order[p]] == CycleNext(order, p);
  }

  /** Follows the links from the current cup to cup 1. */
  method SeekOne(cups: CupCycle) returns (node: int)
    requires cups.Valid() && cups.lo <= 1 <= cups.hi
    ensures node == 1
  {
    node := cups.cur;
    ghost var p := 0;
    while node != 1
      invariant 0 <= p < |cups.order| && node == cups.order[p] && (1 !in cups.order[..p])
      decreases |cups.order| - p
    {
      SeekStep(cups.lo, cups.hi, cups.next, cups.cur, cups.order, p);
      node := cups.next[node];
      p := p + 1;
    }
  }

  /** Builds the circle and plays `moves` rounds. */
  method PlayGame(list: seq<int>, totalSize: int, moves: nat) returns (cups: CupCycle)
    requires Playable(list, totalSize) && Min(list) <= 1 <= totalSize + Min(list) - 1
    ensures cups.Valid() && cups.lo <= 1 <= cups.hi && |cups.order| == totalSize
    ensures From(cups.order, 1) == FinalFromOne(list, totalSize, moves)
  {
    cups := new CupCycle(list, totalSize);
    LayoutIsCycle(list, totalSize);
    ghost var start := cups.order;
    PlayRounds(cups, moves);
    ghost var final := Rounds(start, cups.lo, cups.hi, moves);
    assert cups.order == final;
    assert FinalFromOne(list, totalSize, moves) == From(final, 1);
  }

  /** Part 1's readout: the labels after cup 1, found by walking to cup 1
      and taking one less than the whole circle from the cup after it. */
  method LabelsAfterOne(cups: CupCycle, count: int) returns (after: seq<int>)
    requires cups.Valid() && cups.lo <= 1 <= cups.hi && count == |cups.order| - 1
    ensures 1 in cups.order && after == From(cups.order, 1)[1..]
  {
    var node := SeekOne(cups);
    ghost var order, next := cups.order, cups.next;
    AfterOne(cups.lo, cups.hi, next, cups.cur, order);
    var start := cups.next[node];
    after := cups.Take(start, count);
    assert cups.order == order;
    ReadAfterOne(order, next, start, count, after);
  }

  /** The walk from the cup after cup 1 is the circle read from cup 1, less cup 1. */
  lemma ReadAfterOne(order: seq<int>, next: map<int, int>, start: int, count: int, after: seq<int>)
    requires 1 in order && 1 in next && start == next[1] && start in order && count == |order| - 1
    requires after == Walk(order, IndexOf(order, start), count)
    requires Walk(order, IndexOf(order, next[1]), |order| - 1) == From(order, 1)[1..]
    ensures after == From(order, 1)[1..]
  {
  }

  /** Part 2's readout: the product of the two labels after cup 1. */
  method ProductAfterOne(cups: CupCycle) returns (product: int)
    requires cups.Valid() && cups.lo <= 1 <= cups.hi
    ensures 1 in cups.order && product == From(cups.order, 1)[1] * From(cups.order, 1)[2]
  {
    var node := SeekOne(cups);
    AfterOne(cups.lo, cups.hi, cups.next, cups.cur, cups.order);
    product := cups.next[node] * cups.next[cups.next[node]];
  }

  method Part1(line: string) returns (r: Result<string>)
    requires line == [] || Game(line, |line|)
    ensures line == [] ==> r == Err("NullPointerException")
    ensures line != [] ==> r == Answer1(line)
  {
    var parsed := Labels(line);
    if parsed.Err? {
      return Err(parsed.msg);
    }
    var list := parsed.value;
    if list == [] {
      // `initial.minOrNull()!!`
      return Err("NullPointerException");
    }
    var cups := PlayGame(list, |list|, Moves1);
    var after := LabelsAfterOne(cups, |list| - 1);
    r := Ok(LabelString(after));
  }

  method Part2(line: string) returns (r: Result<int>)
    requires line == [] || Game(line, Cups2)
    ensures line == [] ==> r == Err("NullPointerException")
    ensures line != [] ==> r == Answer2(line)
  {
    var parsed := Labels(line);
    if parsed.Err? {
      return Err(parsed.msg);
    }
    var list := parsed.value;
    if list == [] {
      // `initial.minOrNull()!!`
      return Err("NullPointerException");
    }
    var cups := PlayGame(list, Cups2, Moves2);
    var product := ProductAfterOne(cups);
    r := Ok(product);
  }
}
