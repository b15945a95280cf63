/** 2020 day 15: the memory game. Each turn speaks the initial numbers in
    order, then how many turns ago the last spoken number was spoken before
    (0 if never). */
module Y2020Day15 {
  import opened Common

  /** The number spoken on turn t (turns count from 1). */
  function Say(initial: seq<int>, t: nat): int
    requires t >= 1
    decreases t, 1
  {
    if t <= |initial| then initial[t - 1] else Age(initial, t - 1)
  }

  /** The value `playToN` derives after turn t: how long ago the number
      spoken on turn t was spoken before it, or 0 if never; 0 before turn 1. */
  function Age(initial: seq<int>, t: nat): nat
    decreases t, 2
  {
    if t == 0 then 0
    else
      var p := LastBefore(initial, Say(initial, t), t - 1);
      if p == 0 then 0 else t - p
  }

  /** The last turn in 1..u that spoke x, or 0 when none did. */
  function LastBefore(initial: seq<int>, x: int, u: nat): (p: nat)
    ensures p <= u
    decreases u, 3
  {
    if u == 0 then 0 else if Say(initial, u) == x then u else LastBefore(initial, x, u - 1)
  }

  /** `LastBefore` is the latest turn speaking x, and 0 means no turn did. */
  lemma {:induction false} LastBeforeMeaning(initial: seq<int>, x: int, u: nat)
    ensures var p := LastBefore(initial, x, u);
      (p == 0 ==> forall t :: 1 <= t <= u ==> Say(initial, t) != x) &&
      (p > 0 ==> Say(initial, p) == x && forall t :: p < t <= u ==> Say(initial, t) != x)
  {
    if u > 0 && Say(initial, u) != x {
      LastBeforeMeaning(initial, x, u - 1);
    }
  }

  /** A derived number is smaller than the turn it is derived on, so only
      the initial numbers can index past the end of `lastSeen`. */
  lemma AgeBound(initial: seq<int>, t: nat)
    ensures t == 0 ==> Age(initial, t) == 0
    ensures t > 0 ==> Age(initial, t) < t
  {
  }

  predicate InRange(x: int, n: int) { 0 <= x < n }

  /** `playToN`: `lastSeen` is an `IntArray(n)` of last turns, 0 meaning
      unseen. A negative n (the array size) throws, and so does an initial
      number used as an index outside 0..n-1; otherwise the result is the
      number derived after turn n - 1. */
  method PlayToN(n: int, initial: seq<int>) returns (r: Result<int>)
    ensures r.Err? <==> n < 0 || exists k :: 0 <= k < |initial| && k < n - 1 && !InRange(initial[k], n)
    ensures r.Ok? ==> r.value == Age(initial, if n >= 1 then n - 1 else 0)
  {
    if n < 0 {
      return Err("NegativeArraySizeException");
    }
    var lastSeen := new int[n](_ => 0);
    var next := 0;
    var i := 1;
    while i < n
      invariant 1 <= i && (i <= n || i == 1)
      invariant forall x :: 0 <= x < n ==> lastSeen[x] == LastBefore(initial, x, i - 1)
      invariant next == Age(initial, i - 1)
      invariant forall k :: 0 <= k < |initial| && k < i - 1 ==> InRange(initial[k], n)
    {
      if i <= |initial| {
        next := initial[i - 1];
      } else {
        AgeBound(initial, i - 1);
      }
      assert next == Say(initial, i);
      if next < 0 || next >= n {
        return Err("ArrayIndexOutOfBoundsException");
      }
      var seen := lastSeen[next];
      var prev := i - (if seen == 0 then i else seen);
      assert prev == Age(initial, i);
      lastSeen[next] := i;
      next := prev;
      i := i + 1;
    }
    assert i == (if n >= 1 then n else 1);
    r := Ok(next);
  }

  /** Past the initial numbers, the result is the number spoken on turn n. */
  lemma ResultIsSpoken(initial: seq<int>, n: nat)
    requires n > |initial| && n >= 1
    ensures Age(initial, n - 1) == Say(initial, n)
  {
  }

  /** The puzzle's example 0,3,6: turns 4 to 10 speak 0, 3, 3, 1, 0, 4, 0. */
  lemma Example()
    ensures Say([0, 3, 6], 4) == 0 && Say([0, 3, 6], 5) == 3 && Say([0, 3, 6], 6) == 3
    ensures Say([0, 3, 6], 7) == 1 && Say([0, 3, 6], 8) == 0
  {
    var s := [0, 3, 6];
    assert Say(s, 1) == 0 && Say(s, 2) == 3 && Say(s, 3) == 6;
    assert LastBefore(s, 6, 2) == 0;
    assert Say(s, 4) == 0;
    assert LastBefore(s, 0, 3) == 1;
    assert Say(s, 5) == 3;
    assert LastBefore(s, 3, 4) == 2;
    assert Say(s, 6) == 3;
    assert LastBefore(s, 3, 5) == 5;
    assert Say(s, 7) == 1;
    assert LastBefore(s, 1, 6) == 0;
    assert Say(s, 8) == 0;
  }
}
