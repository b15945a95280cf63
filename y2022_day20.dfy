/** 2022 day 20: mixing a circle of numbers, each moved in turn as many
    places as its value, on a circular doubly linked list. */
module Y2022Day20 {
  import opened Common
  import Modular

  // ---------------------------------------------------------------- circles

  /** The cell after position i of a circle of n cells. */
  function Succ(i: nat, n: nat): nat
  {
    if i + 1 < n then i + 1 else 0
  }

  /** The cell before position i of a circle of n cells. */
  function Pred(i: nat, n: nat): nat
    requires n > 0
  {
    if i == 0 then n - 1 else i - 1
  }

  predicate Distinct(c: seq<nat>)
  {
    forall i, j :: 0 <= i < j < |c| ==> c[i] != c[j]
  }

  /** The circle holds the nodes 0..n-1, each once. */
  ghost predicate IsPerm(c: seq<nat>, n: nat)
  {
    |c| == n && (forall i :: 0 <= i < |c| ==> c[i] < n) &&
    (forall x: nat :: x < n ==> x in c) && AtMostOnce(c)
  }

  /** No node is in the circle twice. */
  ghost predicate AtMostOnce(c: seq<nat>)
  {
    forall x: nat :: multiset(c)[x] <= 1
  }

  /** `next` and `prev` link each node of the circle `c` to the nodes after
      and before it. */
  predicate Linked(next: seq<nat>, prev: seq<nat>, c: seq<nat>)
  {
    |next| == |prev| && (forall i :: 0 <= i < |c| ==> c[i] < |next|) &&
    (forall i {:trigger next[c[i]]} :: 0 <= i < |c| ==> next[c[i]] == c[Succ(i, |c|)]) &&
    (forall i {:trigger prev[c[i]]} :: 0 <= i < |c| ==> prev[c[i]] == c[Pred(i, |c|)])
  }

  /** Every link leads to a node. */
  predicate Closed(links: seq<nat>)
  {
    forall i :: 0 <= i < |links| ==> links[i] < |links|
  }

  function IndexOf(c: seq<nat>, x: nat): (i: nat)
    requires x in c
    ensures i < |c| && c[i] == x
  {
    if c[0] == x then 0 else 1 + IndexOf(c[1..], x)
  }

  /** The circle read from position k. */
  function Rotate(c: seq<nat>, k: nat): (r: seq<nat>)
    requires k <= |c|
    ensures |r| == |c|
  {
    c[k..] + c[..k]
  }

  /** The other nodes of the circle, read from the one after x. */
  function Others(c: seq<nat>, x: nat): (r: seq<nat>)
    requires x in c
    ensures |r| == |c| - 1
  {
    Rotate(c, IndexOf(c, x))[1..]
  }

  /** One move of node x by `steps`: taken out of the circle, x goes back
      in after the node `steps - 1` places (modulo the others) past the one
      that followed it; the circle is read from that follower. A move of 0,
      of a lone node or of a node not in the circle changes nothing. */
  function Mixed(c: seq<nat>, x: nat, steps: int): seq<nat>
  {
    if steps == 0 || x !in c || |c| < 2 then c
    else
      var l := Others(c, x);
      var j := (steps - 1) % |l|;
      l[..j + 1] + [x] + l[j + 1..]
  }

  // ---------------------------------------------------------------- walking

  /** The node reached by following `next` k times. */
  function Walk(next: seq<nat>, s: nat, k: nat): nat
    decreases k
  {
    if k == 0 || s >= |next| then s else Walk(next, next[s], k - 1)
  }

  /** The node reached by following `prev` k times. */
  function Back(prev: seq<nat>, s: nat, k: nat): nat
    decreases k
  {
    if k == 0 || s >= |prev| then s else Back(prev, prev[s], k - 1)
  }

  /** What `find(steps)` reaches: forwards for steps >= 0, backwards
      otherwise. */
  function Reach(next: seq<nat>, prev: seq<nat>, s: nat, steps: int): nat
  {
    if steps < 0 then Back(prev, s, -steps) else Walk(next, s, steps)
  }

  lemma ModAdd(a: int, b: int, m: int)
    requires m > 0
    ensures (a % m + b) % m == (a + b) % m
  {
    Modular.AddMultiple(a % m + b, a / m, m);
    assert a % m + b + (a / m) * m == a + b;
  }

  lemma ModSmall(a: int, m: int)
    requires 0 <= a < m
    ensures a % m == a
  {
    Modular.ModUnique(a, m, 0, a);
  }

  lemma SuccMod(i: nat, m: nat)
    requires i < m
    ensures Succ(i, m) == (i + 1) % m
  {
    if i + 1 < m {
      ModSmall(i + 1, m);
    } else {
      Modular.ModUnique(i + 1, m, 1, 0);
    }
  }

  lemma PredMod(i: nat, m: nat)
    requires i < m
    ensures Pred(i, m) == (i - 1) % m
  {
    if i == 0 {
      Modular.ModUnique(i - 1, m, -1, m - 1);
    } else {
      ModSmall(i - 1, m);
    }
  }

  /** Walking k links forward along a linked circle moves k places. */
  lemma {:induction false} WalkLinked(next: seq<nat>, prev: seq<nat>, c: seq<nat>, i: nat, k: nat)
    requires Linked(next, prev, c) && i < |c|
    ensures Walk(next, c[i], k) == c[(i + k) % |c|]
    decreases k
  {
    var m := |c|;
    if k == 0 {
      ModSmall(i, m);
    } else {
      WalkLinked(next, prev, c, Succ(i, m), k - 1);
      SuccMod(i, m);
      ModAdd(i + 1, k - 1, m);
    }
  }

  /** Walking k links backward along a linked circle moves back k places. */
  lemma {:induction false} BackLinked(next: seq<nat>, prev: seq<nat>, c: seq<nat>, i: nat, k: nat)
    requires Linked(next, prev, c) && i < |c|
    ensures Back(prev, c[i], k) == c[(i - k) % |c|]
    decreases k
  {
    var m := |c|;
    if k == 0 {
      ModSmall(i, m);
    } else {
      BackLinked(next, prev, c, Pred(i, m), k - 1);
      PredMod(i, m);
      ModAdd(i - 1, -(k - 1), m);
    }
  }

  /** On a linked circle, `find` moves `steps` places, either way. */
  lemma ReachLinked(next: seq<nat>, prev: seq<nat>, c: seq<nat>, i: nat, steps: int)
    requires Linked(next, prev, c) && i < |c|
    ensures Reach(next, prev, c[i], steps) == c[(i + steps) % |c|]
  {
    if steps < 0 {
      BackLinked(next, prev, c, i, -steps);
    } else {
      WalkLinked(next, prev, c, i, steps);
    }
  }

  // ---------------------------------------------------------------- relinking

  /** The position in c of position i of `Rotate(c, k)`. */
  function RotIdx(i: nat, k: nat, n: nat): nat
  {
    if i + k < n then i + k else i + k - n
  }

  lemma RotateAt(c: seq<nat>, k: nat, i: nat)
    requires k <= |c| && i < |c|
    ensures RotIdx(i, k, |c|) < |c| && Rotate(c, k)[i] == c[RotIdx(i, k, |c|)]
  {
  }

  lemma RotIdxNeighbours(i: nat, k: nat, n: nat)
    requires i < n && k < n
    ensures RotIdx(Succ(i, n), k, n) == Succ(RotIdx(i, k, n), n)
    ensures RotIdx(Pred(i, n), k, n) == Pred(RotIdx(i, k, n), n)
  {
  }

  /** A linked circle stays linked when read from another position. */
  lemma LinkedRotate(next: seq<nat>, prev: seq<nat>, c: seq<nat>, k: nat)
    requires Linked(next, prev, c) && k < |c|
    ensures Linked(next, prev, Rotate(c, k))
  {
    var r := Rotate(c, k);
    var n := |c|;
    forall i | 0 <= i < n
      ensures r[i] < |next| && next[r[i]] == r[Succ(i, n)] && prev[r[i]] == r[Pred(i, n)]
    {
      RotateAt(c, k, i);
      RotateAt(c, k, Succ(i, n));
      RotateAt(c, k, Pred(i, n));
      RotIdxNeighbours(i, k, n);
    }
  }

  /** Taking the first node x of the circle c out: its neighbours are
      linked to each other and x keeps its own links. */
  lemma Unlink(next: seq<nat>, prev: seq<nat>, c: seq<nat>)
    requires |c| >= 2 && Linked(next, prev, c) && Distinct(c)
    ensures var p, q := c[|c| - 1], c[1];
      Linked(next[p := q], prev[q := p], c[1..]) && next[p := q][c[0]] == q && prev[q := p][c[0]] == p
  {
    var x, l := c[0], c[1..];
    var m := |l|;
    var p, q := c[m], c[1];
    var next', prev' := next[p := q], prev[q := p];
    assert next[x] == q && prev[x] == p by {
      assert Succ(0, m + 1) == 1 && Pred(0, m + 1) == m;
    }
    forall i | 0 <= i < m
      ensures l[i] < |next'| && next'[l[i]] == l[Succ(i, m)] && prev'[l[i]] == l[Pred(i, m)]
    {
      assert l[i] == c[i + 1];
      assert next[l[i]] == c[Succ(i + 1, m + 1)] && prev[l[i]] == c[Pred(i + 1, m + 1)];
      if i < m - 1 {
        assert l[i] != p;
        assert c[i + 2] == l[i + 1];
      }
      if i > 0 {
        assert l[i] != q;
        assert c[i] == l[i - 1];
      }
    }
    assert x != p && x != q;
  }

  /** Putting x back between l[j] and the node after it. */
  lemma Insert(next: seq<nat>, prev: seq<nat>, l: seq<nat>, x: nat, j: nat)
    requires Linked(next, prev, l) && Distinct(l) && x !in l && x < |next| && j < |l|
    ensures var a, b := l[j], l[Succ(j, |l|)];
      Linked(next[x := b][a := x], prev[x := a][b := x], l[..j + 1] + [x] + l[j + 1..])
  {
    var m := |l|;
    var a, b := l[j], l[Succ(j, m)];
    var next', prev' := next[x := b][a := x], prev[x := a][b := x];
    var w := l[..j + 1] + [x] + l[j + 1..];
    var n := m + 1;
    assert w[j + 1] == x;
    forall i | 0 <= i < n
      ensures w[i] < |next'| && next'[w[i]] == w[Succ(i, n)] && prev'[w[i]] == w[Pred(i, n)]
    {
      if i == j + 1 {
        // x itself
        assert w[Pred(i, n)] == a;
        assert w[Succ(i, n)] == b by {
          if j + 1 < m {
            assert w[j + 2] == l[j + 1];
          } else {
            assert w[0] == l[0];
          }
        }
      } else {
        InsertOther(next, prev, l, x, j, i);
      }
    }
  }

  /** The new links of a node other than x. */
  lemma InsertOther(next: seq<nat>, prev: seq<nat>, l: seq<nat>, x: nat, j: nat, i: nat)
    requires Linked(next, prev, l) && Distinct(l) && x !in l && x < |next| && j < |l|
    requires i <= |l| && i != j + 1
    ensures var a, b := l[j], l[Succ(j, |l|)];
      var next', prev' := next[x := b][a := x], prev[x := a][b := x];
      var w := l[..j + 1] + [x] + l[j + 1..]; var n := |l| + 1;
      w[i] < |next'| && next'[w[i]] == w[Succ(i, n)] && prev'[w[i]] == w[Pred(i, n)]
  {
    var m := |l|;
    var a, b := l[j], l[Succ(j, m)];
    var next', prev' := next[x := b][a := x], prev[x := a][b := x];
    var p := if i <= j then i else i - 1;
    InsertNeighbours(l, x, j, i);
    assert next[l[p]] == l[Succ(p, m)] && prev[l[p]] == l[Pred(p, m)];
    if p == j {
      assert next'[l[p]] == x;
    } else {
      assert l[p] != a && l[p] != x;
      assert next'[l[p]] == next[l[p]];
    }
    if p == Succ(j, m) {
      assert prev'[l[p]] == x;
    } else {
      assert l[p] != b && l[p] != x;
      assert prev'[l[p]] == prev[l[p]];
    }
  }

  /** The neighbours in the new circle of a node other than x. */
  lemma InsertNeighbours(l: seq<nat>, x: nat, j: nat, i: nat)
    requires Distinct(l) && x !in l && j < |l| && i <= |l| && i != j + 1
    ensures var w := l[..j + 1] + [x] + l[j + 1..]; var n := |l| + 1;
      var p := if i <= j then i else i - 1;
      w[i] == l[p] &&
      w[Succ(i, n)] == (if p == j then x else l[Succ(p, |l|)]) &&
      w[Pred(i, n)] == (if p == Succ(j, |l|) then x else l[Pred(p, |l|)])
  {
    var w := l[..j + 1] + [x] + l[j + 1..];
    var m, n := |l|, |l| + 1;
    var p := if i <= j then i else i - 1;
    assert forall k :: 0 <= k <= j ==> w[k] == l[k];
    assert forall k :: j + 1 < k < n ==> w[k] == l[k - 1];
  }

  // ---------------------------------------------------------------- the move

  lemma MixedIsSpliced(c: seq<nat>, x: nat, steps: int)
    requires steps != 0 && x in c && |c| >= 2
    ensures var l := Others(c, x); var j := (steps - 1) % |l|;
      Mixed(c, x, steps) == l[..j + 1] + [x] + l[j + 1..]
  {
  }

  /** The others, read from after x, are a circle of distinct nodes that
      does not contain x. */
  lemma OthersShape(c: seq<nat>, x: nat)
    requires x in c && Distinct(c)
    ensures var k := IndexOf(c, x); Rotate(c, k) == [x] + Others(c, x)
    ensures Distinct([x] + Others(c, x)) && x !in Others(c, x) && Distinct(Others(c, x))
    ensures multiset([x] + Others(c, x)) == multiset(c)
  {
    var k := IndexOf(c, x);
    var r := Rotate(c, k);
    assert r == [x] + r[1..];
    assert c == c[..k] + c[k..];
    RotateDistinct(c, k);
    var l := Others(c, x);
    forall a, b | 0 <= a < b < |l| ensures l[a] != l[b] {
      assert l[a] == r[a + 1] && l[b] == r[b + 1];
    }
  }

  lemma RotateDistinct(c: seq<nat>, k: nat)
    requires k <= |c| && Distinct(c)
    ensures Distinct(Rotate(c, k)) && multiset(Rotate(c, k)) == multiset(c)
  {
    var r := Rotate(c, k);
    var n := |c|;
    assert c == c[..k] + c[k..];
    forall a, b | 0 <= a < b < n ensures r[a] != r[b] {
      var pa := if a < n - k then a + k else a + k - n;
      var pb := if b < n - k then b + k else b + k - n;
      assert r[a] == c[pa] && r[b] == c[pb] && pa != pb;
    }
  }

  /** A move keeps the circle a permutation of the nodes. */
  lemma MixedPerm(c: seq<nat>, x: nat, steps: int, n: nat)
    requires IsPerm(c, n)
    ensures IsPerm(Mixed(c, x, steps), n)
    ensures multiset(Mixed(c, x, steps)) == multiset(c)
  {
    if steps != 0 && x in c && |c| >= 2 {
      var l := Others(c, x);
      var j := (steps - 1) % |l|;
      var w := l[..j + 1] + [x] + l[j + 1..];
      MixedIsSpliced(c, x, steps);
      assert multiset(w) == multiset(c) by {
        OthersMultiset(c, x);
        SpliceMultiset(l, x, j);
      }
      PermByMultiset(c, w, n);
    }
  }

  /** x and the others are the whole circle. */
  lemma OthersMultiset(c: seq<nat>, x: nat)
    requires x in c
    ensures multiset([x] + Others(c, x)) == multiset(c)
  {
    var k := IndexOf(c, x);
    var r := Rotate(c, k);
    assert r == [x] + r[1..];
    assert c == c[..k] + c[k..];
  }

  lemma SpliceMultiset(l: seq<nat>, x: nat, j: nat)
    requires j < |l|
    ensures multiset(l[..j + 1] + [x] + l[j + 1..]) == multiset([x] + l)
  {
    assert l == l[..j + 1] + l[j + 1..];
  }

  /** A sequence with the multiset of a permutation is a permutation. */
  lemma PermByMultiset(c: seq<nat>, w: seq<nat>, n: nat)
    requires IsPerm(c, n) && multiset(w) == multiset(c)
    ensures IsPerm(w, n)
  {
    assert |w| == |multiset(w)| == |multiset(c)| == |c|;
    forall i | 0 <= i < |w| ensures w[i] < n {
      assert w[i] in multiset(w);
    }
    forall x: nat | x < n ensures x in w {
      assert x in c;
      assert x in multiset(c);
    }
  }

  lemma TwoCopies(s: seq<nat>, a: nat, b: nat)
    requires a < b < |s| && s[a] == s[b]
    ensures multiset(s)[s[a]] >= 2
  {
    assert s == s[..b] + s[b..];
    assert s[a] in multiset(s[..b]);
    assert s[b] in multiset(s[b..]);
  }

  lemma {:induction false} OneCopy(s: seq<nat>, x: nat)
    requires Distinct(s)
    ensures multiset(s)[x] <= 1
  {
    if s != [] {
      assert s == [s[0]] + s[1..];
      assert Distinct(s[1..]) by {
        forall a, b | 0 <= a < b < |s| - 1 ensures s[1..][a] != s[1..][b] {
          assert s[1..][a] == s[a + 1] && s[1..][b] == s[b + 1];
        }
      }
      OneCopy(s[1..], x);
      if x == s[0] {
        assert x !in s[1..] by {
          forall k | 0 <= k < |s| - 1 ensures s[1..][k] != x {
            assert s[1..][k] == s[k + 1];
          }
        }
      }
    }
  }

  /** Read from x after a move, the circle is x followed by the others in
      their old circular order, starting j + 1 past x's old successor: the
      others keep their order and x has moved `steps` places. */
  lemma MixedFromX(c: seq<nat>, x: nat, steps: int, n: nat)
    requires steps != 0 && x in c && |c| >= 2 && IsPerm(c, n)
    ensures var l := Others(c, x); var j := (steps - 1) % |l|;
      x in Mixed(c, x, steps) && Others(Mixed(c, x, steps), x) == l[j + 1..] + l[..j + 1]
  {
    var l := Others(c, x);
    var j := (steps - 1) % |l|;
    MixedIsSpliced(c, x, steps);
    MixedPerm(c, x, steps, n);
    PermDistinct(Mixed(c, x, steps), n);
    SpliceFromX(l, x, j);
  }

  lemma SpliceFromX(l: seq<nat>, x: nat, j: nat)
    requires j < |l| && Distinct(l[..j + 1] + [x] + l[j + 1..])
    ensures var w := l[..j + 1] + [x] + l[j + 1..];
      x in w && Others(w, x) == l[j + 1..] + l[..j + 1]
  {
    var w := l[..j + 1] + [x] + l[j + 1..];
    assert w[j + 1] == x;
    UniqueIndex(w, j + 1);
    assert w[j + 1..] == [x] + l[j + 1..] && w[..j + 1] == l[..j + 1];
    assert Rotate(w, j + 1) == [x] + (l[j + 1..] + l[..j + 1]);
  }

  /** In a sequence without repeats, a node's first index is its index. */
  lemma UniqueIndex(w: seq<nat>, k: nat)
    requires Distinct(w) && k < |w|
    ensures IndexOf(w, w[k]) == k
  {
    var i := IndexOf(w, w[k]);
    assert w[i] == w[k];
  }

  /** Go's `value % (size - 1)` is a truncating remainder, yet moving by it
      is the same as moving by the value itself when it is not a multiple
      of the number of other nodes. */
  lemma ReducedSteps(c: seq<nat>, x: nat, steps: int)
    requires x in c && |c| >= 2 && steps != 0 && Modular.TRem(steps, |c| - 1) != 0
    ensures Mixed(c, x, Modular.TRem(steps, |c| - 1)) == Mixed(c, x, steps)
  {
    var m := |c| - 1;
    var t := Modular.TRem(steps, m);
    Modular.TDivRem(steps, m);
    Modular.AddMultiple(t - 1, Modular.TDiv(steps, m), m);
    assert t - 1 + Modular.TDiv(steps, m) * m == steps - 1;
  }

  /** Moving by a multiple of the number of other nodes puts the node back
      between the same two nodes. */
  lemma FullTurn(c: seq<nat>, x: nat, steps: int)
    requires x in c && |c| >= 2 && steps != 0 && steps % (|c| - 1) == 0 && Distinct(c)
    ensures Mixed(c, x, steps) == Others(c, x) + [x]
    ensures Rotate(c, IndexOf(c, x)) == [x] + Others(c, x)
  {
    var l := Others(c, x);
    OthersShape(c, x);
    var m := |l|;
    BeforeMultiple(steps, m);
    MixedIsSpliced(c, x, steps);
    assert l[..m] == l && l[m..] == [];
  }

  lemma BeforeMultiple(s: int, m: int)
    requires m > 0 && s % m == 0
    ensures (s - 1) % m == m - 1
  {
    Modular.ModUnique(s - 1, m, s / m - 1, m - 1);
  }

  // ---------------------------------------------------------------- rounds

  function Iota(n: nat): (r: seq<nat>)
    ensures |r| == n && forall i :: 0 <= i < n ==> r[i] == i
  {
    seq(n, i requires 0 <= i < n => i as nat)
  }

  lemma IotaPerm(n: nat)
    ensures IsPerm(Iota(n), n)
  {
    forall x: nat | x < n ensures x in Iota(n) {
      assert Iota(n)[x] == x;
    }
    forall x: nat ensures multiset(Iota(n))[x] <= 1 {
      OneCopy(Iota(n), x);
    }
  }

  /** `buildList`'s values: each number times the multiplier. */
  function Scaled(ints: seq<int>, multiplier: int): (r: seq<int>)
    ensures |r| == |ints| && forall i :: 0 <= i < |ints| ==> r[i] == ints[i] * multiplier
  {
    seq(|ints|, i requires 0 <= i < |ints| => ints[i] * multiplier)
  }

  /** The circle after moving nodes 0..k-1 in turn, each by its value
      reduced as Go's `%` reduces it. */
  function MixAll(c: seq<nat>, vals: seq<int>, k: nat): seq<nat>
    requires 2 <= |vals| && k <= |vals|
  {
    if k == 0 then c
    else Mixed(MixAll(c, vals, k - 1), k - 1, Modular.TRem(vals[k - 1], |vals| - 1))
  }

  /** The circle after `rounds` rounds of mixing. */
  function Rounds(c: seq<nat>, vals: seq<int>, rounds: nat): seq<nat>
    requires 2 <= |vals|
  {
    if rounds == 0 then c else MixAll(Rounds(c, vals, rounds - 1), vals, |vals|)
  }

  /** Mixing keeps the circle a permutation of the nodes. */
  lemma {:induction false} MixAllPerm(c: seq<nat>, vals: seq<int>, k: nat)
    requires 2 <= |vals| && k <= |vals| && IsPerm(c, |vals|)
    ensures IsPerm(MixAll(c, vals, k), |vals|)
  {
    if k > 0 {
      var prior := MixAll(c, vals, k - 1);
      var steps := Modular.TRem(vals[k - 1], |vals| - 1);
      assert IsPerm(prior, |vals|) by {
        MixAllPerm(c, vals, k - 1);
      }
      MixAllStep(c, vals, k - 1, prior, steps);
      MixedPerm(prior, k - 1, steps, |vals|);
    }
  }

  /** Mixing k + 1 nodes is moving node k after mixing the first k. */
  lemma MixAllStep(c: seq<nat>, vals: seq<int>, k: nat, prior: seq<nat>, steps: int)
    requires 2 <= |vals| && k < |vals|
    requires prior == MixAll(c, vals, k) && steps == Modular.TRem(vals[k], |vals| - 1)
    ensures MixAll(c, vals, k + 1) == Mixed(prior, k, steps)
  {
  }

  lemma {:induction false} RoundsPerm(c: seq<nat>, vals: seq<int>, rounds: nat)
    requires 2 <= |vals| && IsPerm(c, |vals|)
    ensures IsPerm(Rounds(c, vals, rounds), |vals|)
  {
    if rounds > 0 {
      RoundsPerm(c, vals, rounds - 1);
      MixAllPerm(Rounds(c, vals, rounds - 1), vals, |vals|);
    }
  }

  // ---------------------------------------------------------------- scoring

  /** Node e places round from position i0 holds v. */
  predicate HoldsAt(c: seq<nat>, vals: seq<int>, v: int, i0: nat, e: nat)
  {
    |c| > 0 && c[(i0 + e) % |c|] < |vals| && vals[c[(i0 + e) % |c|]] == v
  }

  /** The first offset e >= d, going round from position i0, whose node
      holds v. */
  function ValueFrom(c: seq<nat>, vals: seq<int>, v: int, i0: nat, d: nat): Option<nat>
    decreases |c| - d
  {
    if d >= |c| then None
    else if HoldsAt(c, vals, v, i0, d) then Some(d)
    else ValueFrom(c, vals, v, i0, d + 1)
  }

  /** `ValueFrom` finds the first offset from d whose node holds v, and
      finds nothing when no offset from d does. */
  lemma {:induction false} ValueFromFound(c: seq<nat>, vals: seq<int>, v: int, i0: nat, d: nat)
    ensures var r := ValueFrom(c, vals, v, i0, d);
      r.Some? ==> d <= r.value < |c| && HoldsAt(c, vals, v, i0, r.value)
    ensures var r := ValueFrom(c, vals, v, i0, d);
      r.Some? ==> forall e :: d <= e < r.value ==> !HoldsAt(c, vals, v, i0, e)
    ensures ValueFrom(c, vals, v, i0, d).None? ==> forall e :: d <= e < |c| ==> !HoldsAt(c, vals, v, i0, e)
    decreases |c| - d
  {
    if d < |c| {
      ValueFromFound(c, vals, v, i0, d + 1);
    }
  }

  /** What `findValue(v)` from node s finds: the first node holding v going
      round from s, or nothing when no node holds v. */
  function FoundNode(c: seq<nat>, vals: seq<int>, v: int, s: nat): (r: Option<nat>)
    requires IsPerm(c, |vals|) && s in c
    ensures r.Some? ==> r.value < |vals| && vals[r.value] == v
  {
    var i0 := IndexOf(c, s);
    ValueFromFound(c, vals, v, i0, 0);
    match ValueFrom(c, vals, v, i0, 0)
    case None => None
    case Some(d) => Some(c[(i0 + d) % |c|])
  }

  /** `findValue` finds nothing exactly when no node holds the value. */
  lemma FoundNodeNone(c: seq<nat>, vals: seq<int>, v: int, s: nat)
    requires IsPerm(c, |vals|) && s in c
    ensures FoundNode(c, vals, v, s).None? <==> v !in vals
  {
    if v in vals {
      var y :| 0 <= y < |vals| && vals[y] == v;
      assert y in c;
      var i0 := IndexOf(c, s);
      var e := ReachOffset(c, i0, y);
      ValueFromFound(c, vals, v, i0, 0);
      assert HoldsAt(c, vals, v, i0, e);
    }
  }

  /** Every node is some number of places round from position i0. */
  lemma ReachOffset(c: seq<nat>, i0: nat, y: nat) returns (e: nat)
    requires y in c && i0 < |c|
    ensures e < |c| && c[(i0 + e) % |c|] == y
  {
    var n := |c|;
    var k := IndexOf(c, y);
    e := (k - i0) % n;
    ModAdd(k - i0, i0, n);
    ModSmall(k, n);
  }

  /** `score`: the sum of the values 1000 and 2000 places past the node
      holding 0, found going round from node 0, and of the value `last`
      places past that; `findValue` never returns when no node holds 0. */
  function Grove(c: seq<nat>, vals: seq<int>, last: nat): Result<int>
    requires IsPerm(c, |vals|) && |vals| >= 1
  {
    assert 0 in c;
    match FoundNode(c, vals, 0, 0)
    case None => Err("findValue(0) does not return")
    case Some(z) =>
      assert z in c;
      var i, n := IndexOf(c, z), |c|;
      Ok(vals[Past(c, i, 1000)] + vals[Past(c, i, 2000)] + vals[Past(c, i, 2000 + last)])
  }

  /** The node k places past position i of the circle. */
  function Past(c: seq<nat>, i: nat, k: int): nat
    requires |c| > 0
  {
    c[(i + k) % |c|]
  }

  /** `part1` and `part2`: an empty list panics on `nodes[0]`, and a single
      number on the division by `size - 1 == 0`. */
  function Answer(ints: seq<int>, multiplier: int, rounds: nat, last: nat): Result<int>
    requires rounds >= 1
  {
    if |ints| == 0 then Err("index out of range")
    else if |ints| == 1 then Err("integer divide by zero")
    else
      var vals := Scaled(ints, multiplier);
      IotaPerm(|ints|);
      RoundsPerm(Iota(|ints|), vals, rounds);
      Grove(Rounds(Iota(|ints|), vals, rounds), vals, last)
  }

  // ---------------------------------------------------------------- the list

  /** Going round a circle without repeats, the first node comes back only
      after all of them. */
  lemma BackAtStart(rot: seq<nat>, d: nat)
    requires Distinct(rot) && 1 <= d <= |rot| && rot[Succ(d - 1, |rot|)] == rot[0]
    ensures d == |rot|
  {
  }

  /** The links of a linked circle lead to nodes. */
  lemma LinkedClosed(next: seq<nat>, prev: seq<nat>, c: seq<nat>)
    requires IsPerm(c, |next|) && Linked(next, prev, c)
    ensures Closed(next) && Closed(prev)
  {
    var n := |c|;
    forall y | 0 <= y < n ensures next[y] < n && prev[y] < n {
      assert y in c;
      var i := IndexOf(c, y);
    }
  }

  /** `buildList`: node i holds ints[i] * multiplier and the links run
      0, 1, ..., n - 1 and back to 0. */
  method BuildList(ints: seq<int>, multiplier: int) returns (vals: seq<int>, next: seq<nat>, prev: seq<nat>)
    requires |ints| >= 1
    ensures vals == Scaled(ints, multiplier) && |next| == |ints|
    ensures Linked(next, prev, Iota(|ints|))
  {
    var n := |ints|;
    vals, next, prev := [], [], [];
    for k := 0 to n
      invariant |vals| == |next| == |prev| == k
      invariant forall i :: 0 <= i < k ==> vals[i] == ints[i] * multiplier
      invariant forall i :: 0 <= i < k - 1 ==> next[i] == i + 1
      invariant forall i :: 0 < i < k ==> prev[i] == i - 1
    {
      vals := vals + [ints[k] * multiplier];
      // a link not yet set is Go's nil; it is set below before it is read
      next := next + [0];
      prev := prev + [0];
      if k > 0 {
        prev := prev[k := k - 1];
        next := next[k - 1 := k];
      }
    }
    prev := prev[0 := n - 1];
    next := next[n - 1 := 0];
    var c := Iota(n);
    forall i | 0 <= i < n ensures next[c[i]] == c[Succ(i, n)] && prev[c[i]] == c[Pred(i, n)] {
    }
  }

  /** `find` on the links `next` and `prev`: follows `next` `steps` times, or `prev` `-steps` times. */
  method Find(next: seq<nat>, prev: seq<nat>, start: nat, steps: int) returns (o: nat)
    requires start < |next| == |prev| && Closed(next) && Closed(prev)
    ensures o < |next| && o == Reach(next, prev, start, steps)
  {
    o := start;
    if steps < 0 {
      var i := steps;
      while i < 0
        invariant steps <= i <= 0 && o < |prev| && Back(prev, o, -i) == Back(prev, start, -steps)
      {
        o := prev[o];
        i := i + 1;
      }
    } else {
      for i := 0 to steps
        invariant o < |next| && Walk(next, o, steps - i) == Walk(next, start, steps)
      {
        o := next[o];
      }
    }
  }

  /** The loop of `toSlice`: the values read following `next` from
      `start`, the first node of the circle `rot`, until it comes back. */
  method ReadRound(next: seq<nat>, value: seq<int>, start: nat, ghost prev: seq<nat>, ghost rot: seq<nat>)
    returns (ints: seq<int>)
    requires |rot| >= 1 && start == rot[0] && Distinct(rot) && Linked(next, prev, rot)
    requires forall k :: 0 <= k < |rot| ==> rot[k] < |value|
    ensures |ints| == |rot| && forall k :: 0 <= k < |rot| ==> ints[k] == value[rot[k]]
  {
    ghost var n := |rot|;
    ints := [value[start]];
    var o := next[start];
    ghost var d: nat := 1;
    while o != start
      invariant 1 <= d <= n && o == rot[Succ(d - 1, n)] && |ints| == d
      invariant forall k :: 0 <= k < d ==> ints[k] == value[rot[k]]
      decreases n - d
    {
      assert d < n && o == rot[d];
      ints := ints + [value[o]];
      o := next[o];
      d := d + 1;
    }
    BackAtStart(rot, d);
  }

  /** The `nodes` slice of `buildList`: node i's value and its links, and
      the circle the links form. */
  class Nodes {
    const value: seq<int>
    var next: seq<nat>
    var prev: seq<nat>
    /** The circle, read from any node. */
    ghost var order: seq<nat>

    ghost predicate Valid()
      reads this
    {
      |value| >= 1 && |next| == |value| && IsPerm(order, |value|) && Linked(next, prev, order)
    }

    constructor (ints: seq<int>, multiplier: int)
      requires |ints| >= 1
      ensures Valid() && value == Scaled(ints, multiplier) && order == Iota(|ints|)
    {
      var v, nx, pv := BuildList(ints, multiplier);
      value, next, prev := v, nx, pv;
      order := Iota(|ints|);
      IotaPerm(|ints|);
    }

    /** `findValue`: goes round from `start` to the first node holding v.
        Where the source goes round for ever, no node holds v and the model
        stops after one turn with nothing. */
    method FindValue(start: nat, v: int) returns (r: Option<nat>)
      requires Valid() && start < |value|
      ensures r == FoundNode(order, value, v, start)
    {
      ghost var c, n := order, |order|;
      assert start in c;
      ghost var i0 := IndexOf(c, start);
      ModSmall(i0, n);
      var o := start;
      var d: nat := 0;
      while value[o] != v
        invariant d < n && o == c[(i0 + d) % n]
        invariant ValueFrom(c, value, v, i0, d) == ValueFrom(c, value, v, i0, 0)
        decreases n - d
      {
        assert !HoldsAt(c, value, v, i0, d);
        if d == |value| - 1 {
          return None;
        }
        ghost var k := (i0 + d) % n;
        assert next[c[k]] == c[Succ(k, n)];
        SuccMod(k, n);
        ModAdd(i0 + d, 1, n);
        o := next[o];
        d := d + 1;
      }
      assert HoldsAt(c, value, v, i0, d);
      r := Some(o);
    }

    /** `toSlice`: the values read going round from `start`. */
    method ToSlice(start: nat) returns (ints: seq<int>)
      requires Valid() && start < |value|
      ensures var rot := Rotate(order, IndexOf(order, start));
        |ints| == |rot| && forall k :: 0 <= k < |rot| ==> ints[k] == value[rot[k]]
    {
      assert start in order;
      ghost var rot := Rotate(order, IndexOf(order, start));
      LinkedRotate(next, prev, order, IndexOf(order, start));
      PermDistinct(order, |order|);
      RotateDistinct(order, IndexOf(order, start));
      assert rot[0] == start;
      ints := ReadRound(next, value, start, prev, rot);
    }

    /** `move`: takes the node out of the circle and puts it back after the
        node `steps` places on (or before the node `-steps` places back). */
    method Move(x: nat, steps: int)
      requires Valid() && x < |value|
      modifies this
      ensures Valid() && order == Mixed(old(order), x, steps)
      ensures steps == 0 ==> next == old(next) && prev == old(prev)
    {
      if steps == 0 {
        return;
      }
      ghost var c, next0, prev0 := order, next, prev;
      assert x in c;
      LinkedClosed(next, prev, c);
      ghost var a, b := Relink(next, prev, c, x, steps);
      var p, q := prev[x], next[x];
      next := next[p := q];
      prev := prev[q := p];
      var t := Find(next, prev, x, steps);
      if steps < 0 {
        var pr := prev[t];
        prev := prev[x := pr];
        next := next[x := t];
        prev := prev[t := x];
        next := next[pr := x];
      } else {
        var nx := next[t];
        next := next[x := nx];
        prev := prev[x := t];
        next := next[t := x];
        prev := prev[nx := x];
      }
      order := Mixed(c, x, steps);
      MixedPerm(c, x, steps, |c|);
    }

    /** One round of `part1`/`part2`: every node in input order moves by its
        value `% (size - 1)`. */
    method MixRound()
      requires Valid() && |value| >= 2
      modifies this
      ensures Valid() && order == MixAll(old(order), value, |value|)
    {
      ghost var c0 := order;
      for k := 0 to |value|
        invariant Valid() && order == MixAll(c0, value, k)
      {
        var steps := Modular.TRem(value[k], |value| - 1);
        assert MixAll(c0, value, k + 1) == Mixed(order, k, steps) by {
          MixAllStep(c0, value, k, order, steps);
        }
        Move(k, steps);
      }
    }

    /** `score`, with `last` the steps of its third `find` (2000 in the
        source). */
    method Score(last: nat) returns (r: Result<int>)
      requires Valid()
      ensures r == Grove(order, value, last)
    {
      LinkedClosed(next, prev, order);
      ghost var c, vals := order, value;
      assert 0 in c;
      var zero := FindValue(0, 0);
      if zero.None? {
        GroveNone(c, vals, last);
        return Err("findValue(0) does not return");
      }
      var z := zero.value;
      assert z in c;
      ghost var i := IndexOf(c, z);
      var sum := SumFrom(z, last, i);
      GroveSome(c, vals, last, z, i, sum);
      r := Ok(sum);
    }

    /** The three `find`s of `score` from z, at position i of the circle,
        and the sum of the values they reach. */
    method SumFrom(z: nat, last: nat, ghost i: nat) returns (sum: int)
      requires Valid() && i < |order| && order[i] == z
      ensures sum == value[Past(order, i, 1000)] + value[Past(order, i, 2000)] + value[Past(order, i, 2000 + last)]
    {
      LinkedClosed(next, prev, order);
      var step := 1000;
      var one := Find(next, prev, z, step);
      var two := Find(next, prev, one, step);
      var three := Find(next, prev, two, last);
      ReachFrom(next, prev, order, i, 0, step, 1000);
      ReachFrom(next, prev, order, i, 1000, step, 2000);
      ReachFrom(next, prev, order, i, 2000, last, 2000 + last);
      sum := value[one] + value[two] + value[three];
    }
  }

  /** From the node a places past position i, `find(k)` reaches the node
      b == a + k places past it. */
  lemma ReachFrom(next: seq<nat>, prev: seq<nat>, c: seq<nat>, i: nat, a: int, k: int, b: int)
    requires Linked(next, prev, c) && i < |c| && b == a + k
    ensures Past(c, i, 0) == c[i]
    ensures Reach(next, prev, Past(c, i, a), k) == Past(c, i, b)
  {
    var n := |c|;
    ModSmall(i, n);
    ReachLinked(next, prev, c, (i + a) % n, k);
    ModAdd(i + a, k, n);
  }

  /** `Grove` when no node holds 0. */
  lemma GroveNone(c: seq<nat>, vals: seq<int>, last: nat)
    requires IsPerm(c, |vals|) && |vals| >= 1 && 0 in c && FoundNode(c, vals, 0, 0).None?
    ensures Grove(c, vals, last) == Err("findValue(0) does not return")
  {
  }

  /** `Grove` when node z is the first found holding 0 and a, b and d are
      the values 1000, 2000 and 2000 + last places past it. */
  lemma GroveSome(c: seq<nat>, vals: seq<int>, last: nat, z: nat, i: nat, sum: int)
    requires IsPerm(c, |vals|) && |vals| >= 1 && 0 in c && FoundNode(c, vals, 0, 0) == Some(z)
    requires z in c && i == IndexOf(c, z)
    requires sum == vals[Past(c, i, 1000)] + vals[Past(c, i, 2000)] + vals[Past(c, i, 2000 + last)]
    ensures Grove(c, vals, last) == Ok(sum)
  {
  }

  /** The whole of `move(steps)` for steps != 0 on a linked circle: after
      x is unlinked, `find` lands on a (steps > 0) or b (steps < 0), the two
      adjacent nodes x goes between, and relinking x there links the circle
      `Mixed(c, x, steps)`. For a lone node a == b == x. */
  lemma Relink(next: seq<nat>, prev: seq<nat>, c: seq<nat>, x: nat, steps: int) returns (a: nat, b: nat)
    requires IsPerm(c, |next|) && Linked(next, prev, c) && x in c && steps != 0
    ensures x < |next| && prev[x] < |next| && next[x] < |next|
    ensures var next1, prev1 := next[prev[x] := next[x]], prev[next[x] := prev[x]];
      Closed(next1) && Closed(prev1) && |next1| == |prev1| &&
      Reach(next1, prev1, x, steps) == (if steps < 0 then b else a) &&
      a < |next1| && b < |next1| && prev1[b] == a && next1[a] == b &&
      Linked(next1[x := b][a := x], prev1[x := a][b := x], Mixed(c, x, steps))
  {
    LinkedClosed(next, prev, c);
    PermDistinct(c, |c|);
    OthersShape(c, x);
    LinkedRotate(next, prev, c, IndexOf(c, x));
    var r := Rotate(c, IndexOf(c, x));
    assert r[0] == x;
    if |c| == 1 {
      a, b := x, x;
      RelinkLone(next, prev, c, r, x, steps);
    } else {
      a, b := RelinkMany(next, prev, c, r, x, steps);
    }
  }

  lemma RelinkLone(next: seq<nat>, prev: seq<nat>, c: seq<nat>, r: seq<nat>, x: nat, steps: int)
    requires |c| == 1 && Closed(next) && Closed(prev) && |next| == |prev| && x in c
    requires r == Rotate(c, IndexOf(c, x)) && r[0] == x && Linked(next, prev, r)
    ensures x < |next| && next[x] == x && prev[x] == x
    ensures next[x := x] == next && prev[x := x] == prev
    ensures Reach(next, prev, x, steps) == x && Mixed(c, x, steps) == c && Linked(next, prev, c)
  {
    assert r == [x] && c == [x];
    assert Succ(0, 1) == 0 && Pred(0, 1) == 0;
    Modular.ModUnique(steps, 1, steps, 0);
    ReachLinked(next, prev, r, 0, steps);
  }

  lemma RelinkMany(next: seq<nat>, prev: seq<nat>, c: seq<nat>, r: seq<nat>, x: nat, steps: int) returns (a: nat, b: nat)
    requires |c| >= 2 && Closed(next) && Closed(prev) && |next| == |prev| && x in c && steps != 0
    requires r == Rotate(c, IndexOf(c, x)) && r == [x] + Others(c, x) && Linked(next, prev, r)
    requires Distinct(r) && x !in Others(c, x) && Distinct(Others(c, x))
    ensures x < |next| && prev[x] < |next| && next[x] < |next|
    ensures var next1, prev1 := next[prev[x] := next[x]], prev[next[x] := prev[x]];
      Closed(next1) && Closed(prev1) && |next1| == |prev1| &&
      Reach(next1, prev1, x, steps) == (if steps < 0 then b else a) &&
      a < |next1| && b < |next1| && prev1[b] == a && next1[a] == b &&
      Linked(next1[x := b][a := x], prev1[x := a][b := x], Mixed(c, x, steps))
  {
    var n := |c|;
    var l := Others(c, x);
    var m := |l|;
    var j := (steps - 1) % m;
    a, b := l[j], l[Succ(j, m)];
    assert r[0] == x;
    assert next[x] == r[1] && prev[x] == r[n - 1] by {
      assert Succ(0, n) == 1 && Pred(0, n) == n - 1;
    }
    var next1, prev1 := next[prev[x] := next[x]], prev[next[x] := prev[x]];
    ClosedUpdate(next, prev[x], next[x]);
    ClosedUpdate(prev, next[x], prev[x]);
    Unlink(next, prev, r);
    assert r[1..] == l && r[n - 1] == l[m - 1] && r[1] == l[0];
    DetachedReach(next1, prev1, l, x, steps);
    assert prev1[b] == a && next1[a] == b by {
      assert Pred(Succ(j, m), m) == j;
    }
    Insert(next1, prev1, l, x, j);
    MixedIsSpliced(c, x, steps);
    assert Mixed(c, x, steps) == l[..j + 1] + [x] + l[j + 1..];
  }

  lemma ClosedUpdate(links: seq<nat>, k: nat, v: nat)
    requires Closed(links) && k < |links| && v < |links|
    ensures Closed(links[k := v])
  {
  }

  /** A permutation has no repeated node. */
  lemma PermDistinct(c: seq<nat>, n: nat)
    requires IsPerm(c, n)
    ensures Distinct(c)
  {
    forall a, b | 0 <= a < b < |c| ensures c[a] != c[b] {
      if c[a] == c[b] {
        TwoCopies(c, a, b);
      }
    }
  }

  /** x is out of the circle l but keeps its links to l's last and first
      nodes: `find(steps)` from x lands on the node x goes after (steps > 0)
      or before (steps < 0). */
  lemma DetachedReach(next: seq<nat>, prev: seq<nat>, l: seq<nat>, x: nat, steps: int)
    requires |l| >= 1 && Linked(next, prev, l) && x < |next|
    requires next[x] == l[0] && prev[x] == l[|l| - 1] && steps != 0
    ensures var m := |l|; var j := (steps - 1) % m;
      Reach(next, prev, x, steps) == (if steps < 0 then l[Succ(j, m)] else l[j])
  {
    var m := |l|;
    var j := (steps - 1) % m;
    if steps > 0 {
      assert Walk(next, x, steps) == Walk(next, l[0], steps - 1);
      WalkLinked(next, prev, l, 0, steps - 1);
    } else {
      var k := -steps;
      assert Back(prev, x, k) == Back(prev, l[m - 1], k - 1);
      BackLinked(next, prev, l, m - 1, k - 1);
      SuccMod(j, m);
      ModAdd(steps - 1, 1, m);
      Modular.AddMultiple(steps, 1, m);
      assert m - 1 - (k - 1) == steps + 1 * m;
    }
  }

  /** The score read off the circle as `toSlice` from the zero node gives
      it: the values at offsets 1000, 2000 and 2000 + last of that list
      (wrapping round). */
  lemma GroveFromZero(c: seq<nat>, vals: seq<int>, last: nat, z: nat)
    requires IsPerm(c, |vals|) && |vals| >= 1 && 0 in c && FoundNode(c, vals, 0, 0) == Some(z)
    ensures z in c && vals[z] == 0
    ensures var rot, n := Rotate(c, IndexOf(c, z)), |c|;
      Grove(c, vals, last) == Ok(vals[rot[1000 % n]] + vals[rot[2000 % n]] + vals[rot[(2000 + last) % n]])
  {
    assert z in c;
    var i, n := IndexOf(c, z), |c|;
    PastRotated(c, i, 1000, 1000 % n);
    PastRotated(c, i, 2000, 2000 % n);
    PastRotated(c, i, 2000 + last, (2000 + last) % n);
    var rot := Rotate(c, i);
    GroveSome(c, vals, last, z, i, vals[rot[1000 % n]] + vals[rot[2000 % n]] + vals[rot[(2000 + last) % n]]);
  }

  /** Position k of the circle read from i is the node k places past i. */
  lemma PastRotated(c: seq<nat>, i: nat, k: int, kn: nat)
    requires i < |c| && k >= 0 && kn == k % |c|
    ensures Rotate(c, i)[kn] == Past(c, i, k)
  {
    var n := |c|;
    RotateAt(c, i, kn);
    ModAdd(k, i, n);
    if kn + i < n {
      ModSmall(kn + i, n);
    } else {
      Modular.AddMultiple(kn + i - n, 1, n);
      ModSmall(kn + i - n, n);
    }
  }

  /** `score` as written reads 4000 places past the zero for its third
      number: on the circle 0..6 with 7 at offset 3 and 1 at offset 4 it
      adds the 7, where the 3000th number after the zero is the 1. */
  lemma ThirdFindOvershoots()
    ensures IsPerm(Iota(7), 7)
    ensures Grove(Iota(7), [0, 0, 0, 7, 1, 0, 0], 2000) == Ok(7)
    ensures Grove(Iota(7), [0, 0, 0, 7, 1, 0, 0], 1000) == Ok(1)
  {
    var c, vals := Iota(7), [0, 0, 0, 7, 1, 0, 0];
    IotaPerm(7);
    assert IndexOf(c, 0) == 0;
    assert HoldsAt(c, vals, 0, 0, 0);
    assert FoundNode(c, vals, 0, 0) == Some(0);
    assert Rotate(c, 0) == c;
    GroveFromZero(c, vals, 2000, 0);
    GroveFromZero(c, vals, 1000, 0);
  }

  /** `part1` and `part2`, with `last` the steps of `score`'s third `find`. */
  method Decrypt(ints: seq<int>, multiplier: int, rounds: nat, last: nat) returns (r: Result<int>)
    requires rounds >= 1
    ensures r == Answer(ints, multiplier, rounds, last)
  {
    if |ints| == 0 {
      return Err("index out of range");
    }
    var nodes := new Nodes(ints, multiplier);
    if |ints| == 1 {
      return Err("integer divide by zero");
    }
    for i := 0 to rounds
      invariant nodes.Valid() && nodes.value == Scaled(ints, multiplier)
      invariant nodes.order == Rounds(Iota(|ints|), nodes.value, i)
    {
      nodes.MixRound();
    }
    r := nodes.Score(last);
  }

  const Part2Multiplier := 811589153

  /** `part1`: one round, the numbers as they are. */
  method Part1(ints: seq<int>) returns (r: Result<int>)
    ensures r == Answer(ints, 1, 1, 2000)
  {
    r := Decrypt(ints, 1, 1, 2000);
  }

  /** `part2`: ten rounds, each number times 811589153. */
  method Part2(ints: seq<int>) returns (r: Result<int>)
    ensures r == Answer(ints, Part2Multiplier, 10, 2000)
  {
    r := Decrypt(ints, Part2Multiplier, 10, 2000);
  }

  /** `part1` as intended: the third number is the 3000th after the zero. */
  method Part1Fixed(ints: seq<int>) returns (r: Result<int>)
    ensures r == Answer(ints, 1, 1, 1000)
  {
    r := Decrypt(ints, 1, 1, 1000);
  }

  /** `part2` as intended. */
  method Part2Fixed(ints: seq<int>) returns (r: Result<int>)
    ensures r == Answer(ints, Part2Multiplier, 10, 1000)
  {
    r := Decrypt(ints, Part2Multiplier, 10, 1000);
  }
}
