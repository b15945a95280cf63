/** 2020 day 1: find entries of an expense report that sum to 2020. */
module Y2020Dec01 {

  /** The products Part1 emits, in input order: one for each value whose
      complement to 2020 occurred at a strictly earlier position. */
  function PairProducts(v: seq<int>): seq<int>
  {
    if v == [] then []
    else
      var init, x := v[..|v| - 1], v[|v| - 1];
      PairProducts(init) + (if 2020 - x in init then [x * (2020 - x)] else [])
  }

  /** Part1: the source streams the values, testing membership in `seen`
      before adding the current value, so no value pairs with itself. */
  method Part1(v: seq<int>) returns (out: seq<int>)
    ensures out == PairProducts(v)
  {
    var seen: set<int> := {};
    out := [];
    var i := 0;
    while i < |v|
      invariant 0 <= i <= |v|
      invariant seen == set k | 0 <= k < i :: v[k]
      invariant out == PairProducts(v[..i])
    {
      assert v[..i + 1][..i] == v[..i];
      assert forall y :: y in seen <==> y in v[..i];
      if 2020 - v[i] in seen {
        out := out + [v[i] * (2020 - v[i])];
      }
      seen := seen + {v[i]};
      i := i + 1;
    }
    assert v[..i] == v;
  }

  /** r is a product Part1 reports exactly when two entries at distinct
      positions sum to 2020 and r is their product. */
  lemma {:induction false} PairProductsMeaning(v: seq<int>, r: int)
    ensures r in PairProducts(v) <==>
      exists k, j :: 0 <= k < j < |v| && v[k] + v[j] == 2020 && r == v[j] * v[k]
  {
    if r in PairProducts(v) {
      PairProductsSound(v, r);
    }
    if exists k, j :: 0 <= k < j < |v| && v[k] + v[j] == 2020 && r == v[j] * v[k] {
      var k, j :| 0 <= k < j < |v| && v[k] + v[j] == 2020 && r == v[j] * v[k];
      PairProductsComplete(v, k, j);
    }
  }

  lemma {:induction false} PairProductsSound(v: seq<int>, r: int)
    requires r in PairProducts(v)
    ensures exists k, j :: 0 <= k < j < |v| && v[k] + v[j] == 2020 && r == v[j] * v[k]
  {
    var init, x := v[..|v| - 1], v[|v| - 1];
    if r in PairProducts(init) {
      PairProductsSound(init, r);
      var k, j :| 0 <= k < j < |init| && init[k] + init[j] == 2020 && r == init[j] * init[k];
      assert v[k] == init[k] && v[j] == init[j];
    } else {
      assert r == x * (2020 - x);
      var k :| 0 <= k < |init| && init[k] == 2020 - x;
      assert v[k] + v[|v| - 1] == 2020 && r == v[|v| - 1] * v[k];
    }
  }

  lemma {:induction false} PairProductsComplete(v: seq<int>, k: nat, j: nat)
    requires k < j < |v| && v[k] + v[j] == 2020
    ensures v[j] * v[k] in PairProducts(v)
  {
    var init, x := v[..|v| - 1], v[|v| - 1];
    if j < |v| - 1 {
      assert init[k] == v[k] && init[j] == v[j];
      PairProductsComplete(init, k, j);
    } else {
      assert init[k] == 2020 - x;
      assert PairProducts(v) == PairProducts(init) + [x * (2020 - x)];
    }
  }

  /** A lone 1010 does not pair with itself; two of them do. */
  lemma LoneHalfDoesNotPair()
    ensures PairProducts([1010]) == []
    ensures PairProducts([1010, 7, 1010]) == [1010 * 1010]
  {
    assert [1010, 7, 1010][..2] == [1010, 7];
    assert [1010, 7][..1] == [1010];
  }

  /** A sum of two entries at positions a < b < n. */
  ghost predicate EarlierPairSum(v: seq<int>, n: int, s: int)
  {
    exists a, b :: 0 <= a < b < n && b < |v| && v[a] + v[b] == s
  }

  /** r is the product of three entries at distinct positions summing to 2020,
      the largest position being j. */
  ghost predicate TripleProductAt(v: seq<int>, j: int, r: int)
  {
    0 <= j < |v| &&
    exists a, b :: 0 <= a < b < j && v[a] + v[b] + v[j] == 2020 && r == v[j] * v[a] * v[b]
  }

  /** r is the product of three entries at distinct positions summing to 2020. */
  ghost predicate IsTriple(v: seq<int>, r: int)
  {
    exists j :: TripleProductAt(v, j, r)
  }

  /** The positions j for which Part2 reports a result. */
  function TripleEnds(v: seq<int>): nat
  {
    if v == [] then 0
    else
      TripleEnds(v[..|v| - 1]) +
      (if exists a, b :: 0 <= a < b < |v| - 1 && v[a] + v[b] + v[|v| - 1] == 2020 then 1 else 0)
  }

  /** Every entry of `sums` is the sum of two entries of v at positions
      a < b < bound, recorded in `at`. */
  ghost predicate Provenance(v: seq<int>, sums: map<int, (int, int)>, at: map<int, (nat, nat)>, bound: nat)
  {
    at.Keys == sums.Keys &&
    forall s :: s in sums ==>
      at[s].0 < at[s].1 < bound && at[s].1 < |v| &&
      sums[s] == (v[at[s].0], v[at[s].1]) && s == v[at[s].0] + v[at[s].1]
  }

  /** The inner `seen.forEach { x -> sums[x + i] = x to i }` of Part2. */
  method RecordSums(v: seq<int>, i: nat, seen: seq<int>, ghost seenAt: seq<nat>,
                    sums: map<int, (int, int)>, ghost at: map<int, (nat, nat)>)
    returns (sums': map<int, (int, int)>, ghost at': map<int, (nat, nat)>)
    requires i < |v| && |seenAt| == |seen|
    requires forall n :: 0 <= n < |seen| ==> seenAt[n] < i && v[seenAt[n]] == seen[n]
    requires Provenance(v, sums, at, i + 1)
    ensures Provenance(v, sums', at', i + 1)
    ensures sums'.Keys == sums.Keys + set m | 0 <= m < |seen| :: seen[m] + v[i]
  {
    sums', at' := sums, at;
    var n := 0;
    while n < |seen|
      invariant 0 <= n <= |seen|
      invariant Provenance(v, sums', at', i + 1)
      invariant sums'.Keys == sums.Keys + set m | 0 <= m < n :: seen[m] + v[i]
    {
      sums' := sums'[seen[n] + v[i] := (seen[n], v[i])];
      at' := at'[seen[n] + v[i] := (seenAt[n], i)];
      n := n + 1;
    }
  }

  /** Part2: `sums` maps x + i to the pair (x, i) for every earlier-seen x,
      later x overwriting earlier ones; a value whose complement is a key of
      `sums` reports i times that pair. `seen` is kept in insertion order, as
      Kotlin's LinkedHashSet iterates it. */
  method Part2(v: seq<int>) returns (results: seq<int>)
    ensures |results| == TripleEnds(v)
    ensures forall n :: 0 <= n < |results| ==> IsTriple(v, results[n])
  {
    var seen: seq<int> := [];
    ghost var seenAt: seq<nat> := [];
    var sums: map<int, (int, int)> := map[];
    ghost var at: map<int, (nat, nat)> := map[];
    results := [];
    var i := 0;
    while i < |v|
      invariant 0 <= i <= |v|
      invariant |seenAt| == |seen|
      invariant forall n :: 0 <= n < |seen| ==> seenAt[n] < i && v[seenAt[n]] == seen[n]
      invariant forall k :: 0 <= k < i ==> v[k] in seen
      invariant Provenance(v, sums, at, i)
      invariant forall s :: s in sums <==> EarlierPairSum(v, i, s)
      invariant |results| == TripleEnds(v[..i])
      invariant forall n :: 0 <= n < |results| ==> IsTriple(v, results[n])
    {
      results := Report(v, i, sums, at, results);
      ghost var oldSums := sums;
      sums, at := RecordSums(v, i, seen, seenAt, sums, at);
      ExtendSums(v, i, seen, seenAt, oldSums, sums);
      if v[i] !in seen {
        seen := seen + [v[i]];
        seenAt := seenAt + [i];
      }
      i := i + 1;
    }
    assert v[..i] == v;
  }

  lemma ExtendSums(v: seq<int>, i: nat, seen: seq<int>, seenAt: seq<nat>,
                   old': map<int, (int, int)>, sums: map<int, (int, int)>)
    requires i < |v| && |seenAt| == |seen|
    requires forall n :: 0 <= n < |seen| ==> seenAt[n] < i && v[seenAt[n]] == seen[n]
    requires forall k :: 0 <= k < i ==> v[k] in seen
    requires forall s :: s in old' <==> EarlierPairSum(v, i, s)
    requires sums.Keys == old'.Keys + set m | 0 <= m < |seen| :: seen[m] + v[i]
    ensures forall s :: s in sums <==> EarlierPairSum(v, i + 1, s)
  {
    forall s | s in sums ensures EarlierPairSum(v, i + 1, s) {
      if s !in old' {
        var m :| 0 <= m < |seen| && s == seen[m] + v[i];
        assert v[seenAt[m]] + v[i] == s;
      } else {
        var a, b :| 0 <= a < b < i && b < |v| && v[a] + v[b] == s;
      }
    }
    ExtendSumsComplete(v, i, seen, old', sums);
  }

  lemma ExtendSumsComplete(v: seq<int>, i: nat, seen: seq<int>,
                   old': map<int, (int, int)>, sums: map<int, (int, int)>)
    requires i < |v|
    requires forall k :: 0 <= k < i ==> v[k] in seen
    requires forall s :: EarlierPairSum(v, i, s) ==> s in old'
    requires sums.Keys == old'.Keys + set m | 0 <= m < |seen| :: seen[m] + v[i]
    ensures forall s :: EarlierPairSum(v, i + 1, s) ==> s in sums
  {
    forall s | EarlierPairSum(v, i + 1, s) ensures s in sums {
      var a, b :| 0 <= a < b < i + 1 && b < |v| && v[a] + v[b] == s;
      if b < i {
        assert EarlierPairSum(v, i, s);
      } else {
        var m :| 0 <= m < |seen| && seen[m] == v[a];
        assert s == seen[m] + v[i];
      }
    }
  }

  /** The test at the head of each Part2 step. */
  method Report(v: seq<int>, i: nat, sums: map<int, (int, int)>, ghost at: map<int, (nat, nat)>,
                results: seq<int>) returns (results': seq<int>)
    requires i < |v| && Provenance(v, sums, at, i)
    requires forall s :: s in sums <==> EarlierPairSum(v, i, s)
    requires |results| == TripleEnds(v[..i])
    requires forall n :: 0 <= n < |results| ==> IsTriple(v, results[n])
    ensures |results'| == TripleEnds(v[..i + 1])
    ensures forall n :: 0 <= n < |results'| ==> IsTriple(v, results'[n])
  {
    assert v[..i + 1][..i] == v[..i];
    assert v[..i + 1][i] == v[i];
    ghost var found := exists a, b :: 0 <= a < b < i && v[a] + v[b] + v[i] == 2020;
    if 2020 - v[i] in sums {
      var p := sums[2020 - v[i]];
      assert TripleProductAt(v, i, v[i] * p.0 * p.1);
      assert IsTriple(v, v[i] * p.0 * p.1);
      results' := results + [v[i] * p.0 * p.1];
      assert found;
    } else {
      results' := results;
    }
  }
}
