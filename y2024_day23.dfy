/** 2024 day 23: LAN party. The input lists connections between computers;
    part 1 counts the groups of three connected computers with a name
    starting with 't', and part 2 finds a largest group of computers all
    connected to each other, searching from the biggest candidate sets
    down. */
module Y2024Day23 {
  import opened Common

  // ---------------------------------------------------------------- keys

  /** m is the least member of s in string order. */
  predicate Least(m: string, s: set<string>)
  {
    m in s && forall y :: y in s ==> StrLe(m, y)
  }

  /** A finite set of strings has a least member. */
  lemma {:induction false} LeastExists(s: set<string>)
    requires s != {}
    ensures exists m :: Least(m, s)
    decreases |s|
  {
    var x :| x in s;
    StrLeTotal(x, x);
    if s - {x} == {} {
      assert s == {x};
      assert Least(x, s);
    } else {
      LeastExists(s - {x});
      var m :| Least(m, s - {x});
      StrLeTotal(x, m);
      if StrLe(x, m) {
        forall y | y in s ensures StrLe(x, y) {
          if y != x { assert StrLe(m, y); StrLeTrans(x, m, y); }
        }
        assert Least(x, s);
      } else {
        assert Least(m, s);
      }
    }
  }

  /** Two least members are the same string. */
  lemma LeastUnique(s: set<string>)
    ensures forall m, n :: Least(m, s) && Least(n, s) ==> m == n
  {
    forall m, n | Least(m, s) && Least(n, s) ensures m == n {
      StrLeAntisymmetric(m, n);
    }
  }

  /** `slices.Sorted(maps.Keys(s))`: the members of s in ascending order,
      each once. */
  function SortedMembers(s: set<string>): (r: seq<string>)
    ensures SortedStrings(r) && |r| == |s|
    ensures forall x :: x in r <==> x in s
    decreases |s|
  {
    if s == {} then []
    else
      LeastExists(s);
      LeastUnique(s);
      var m :| Least(m, s);
      var rest := SortedMembers(s - {m});
      LeastSorted(m, s, rest);
      [m] + rest
  }

  lemma LeastSorted(m: string, s: set<string>, rest: seq<string>)
    requires Least(m, s) && SortedStrings(rest)
    requires forall x :: x in rest <==> x in s - {m}
    ensures SortedStrings([m] + rest)
  {
    forall i, j | 0 <= i < j < |[m] + rest| ensures StrLe(([m] + rest)[i], ([m] + rest)[j]) {
      if i == 0 {
        assert rest[j - 1] in rest;
      } else {
        assert StrLe(rest[i - 1], rest[j - 1]);
      }
    }
  }

  /** `tokey`: the sorted members joined by ','. */
  function ToKey(s: set<string>): string
  {
    JoinWith(",", SortedMembers(s))
  }

  /** A computer name as the input gives it: not empty and without ','. */
  predicate Name(x: string)
  {
    |x| >= 1 && ',' !in x
  }

  predicate Names(s: set<string>)
  {
    forall x :: x in s ==> Name(x)
  }

  predicate AllNames(a: seq<string>)
  {
    forall i :: 0 <= i < |a| ==> Name(a[i])
  }

  /** Splitting at the first ',' recovers both halves. */
  lemma CommaSplit(x: string, u: string, y: string, v: string)
    requires ',' !in x && ',' !in y
    requires x + "," + u == y + "," + v
    ensures x == y && u == v
  {
    var l := x + "," + u;
    assert l[|x|] == ',' && l[|y|] == ',';
    assert forall i :: 0 <= i < |x| ==> l[i] == x[i];
    assert forall i :: 0 <= i < |y| ==> l[i] == y[i];
    assert |x| == |y|;
    assert x == l[..|x|] && y == l[..|y|];
    assert u == l[|x| + 1..] && v == l[|y| + 1..];
  }

  /** The joined names are empty exactly for no names, and hold a ','
      exactly for two names or more. */
  lemma {:induction false} JoinShape(a: seq<string>)
    requires AllNames(a)
    ensures a == [] <==> JoinWith(",", a) == ""
    ensures |a| >= 2 <==> ',' in JoinWith(",", a)
  {
    if |a| >= 2 {
      var j := JoinWith(",", a);
      assert j == a[0] + "," + JoinWith(",", a[1..]);
      assert j[|a[0]|] == ',';
    } else if |a| == 1 {
      assert Name(a[0]);
    }
  }

  /** Joining names with ',' is one-to-one. */
  lemma {:induction false} JoinInjective(a: seq<string>, b: seq<string>)
    requires AllNames(a) && AllNames(b)
    requires JoinWith(",", a) == JoinWith(",", b)
    ensures a == b
    decreases |a|
  {
    JoinShape(a);
    JoinShape(b);
    if |a| >= 2 && |b| >= 2 {
      assert Name(a[0]) && Name(b[0]);
      CommaSplit(a[0], JoinWith(",", a[1..]), b[0], JoinWith(",", b[1..]));
      assert AllNames(a[1..]) && AllNames(b[1..]);
      JoinInjective(a[1..], b[1..]);
      assert a == [a[0]] + a[1..] && b == [b[0]] + b[1..];
    }
  }

  /** Two sets of names have the same key exactly when they are equal. */
  lemma KeyInjective(s: set<string>, t: set<string>)
    requires Names(s) && Names(t)
    ensures ToKey(s) == ToKey(t) <==> s == t
  {
    if ToKey(s) == ToKey(t) {
      var rs, rt := SortedMembers(s), SortedMembers(t);
      assert AllNames(rs) by { forall i | 0 <= i < |rs| ensures Name(rs[i]) { assert rs[i] in rs; } }
      assert AllNames(rt) by { forall i | 0 <= i < |rt| ensures Name(rt[i]) { assert rt[i] in rt; } }
      JoinInjective(rs, rt);
    }
  }

  /** Go's `min` and `max` on strings. */
  function Smaller(a: string, b: string): string { if StrLe(a, b) then a else b }
  function Larger(a: string, b: string): string { if StrLe(a, b) then b else a }

  /** `twokey`: the key of a connection. */
  function TwoKey(a: string, b: string): string
  {
    Smaller(a, b) + "," + Larger(b, a)
  }

  /** The key of a connection does not depend on its direction. */
  lemma TwoKeySymmetric(a: string, b: string)
    ensures TwoKey(a, b) == TwoKey(b, a)
  {
    StrLeTotal(a, b);
    if StrLe(a, b) && StrLe(b, a) {
      StrLeAntisymmetric(a, b);
    }
  }

  /** The key of a connection between two different computers is the key
      of the pair, so both kinds of key share one `seen` map. */
  lemma TwoKeyIsKey(a: string, b: string)
    requires a != b
    ensures TwoKey(a, b) == ToKey({a, b})
  {
    var r := SortedMembers({a, b});
    assert r[0] in {a, b} && r[1] in {a, b} && a in r && b in r;
    assert StrLe(r[0], r[1]);
    StrLeTotal(a, b);
    if StrLe(a, b) && StrLe(b, a) { StrLeAntisymmetric(a, b); }
    if r[0] == b { assert r[1] == a; if StrLe(a, b) { StrLeAntisymmetric(a, b); } }
    else { assert r[0] == a && r[1] == b; if StrLe(b, a) { StrLeAntisymmetric(a, b); } }
    assert JoinWith(",", r) == r[0] + "," + r[1] by { assert r[1..] == [r[1]]; }
  }

  /** A set of names whose key is the key of a connection has two members. */
  lemma TwoKeyPair(s: set<string>, a: string, b: string)
    requires Names(s) && Name(a) && Name(b)
    requires ToKey(s) == TwoKey(a, b)
    ensures |s| == 2
  {
    var rs := SortedMembers(s);
    assert AllNames(rs) by { forall i | 0 <= i < |rs| ensures Name(rs[i]) { assert rs[i] in rs; } }
    var p := [Smaller(a, b), Larger(b, a)];
    assert JoinWith(",", p) == TwoKey(a, b) by {
      assert p[1..] == [Larger(b, a)];
    }
    JoinInjective(rs, p);
  }

  // -------------------------------------------------------------- network

  /** `stringset` values are sets; `add`, `remove` and `contains` are set
      union with one member, set difference and membership. */
  type Network = map<string, set<string>>

  /** `comps[k]`, with a missing key read as the empty set. */
  function Adj(g: Network, k: string): set<string>
  {
    if k in g then g[k] else {}
  }

  /** `intersect`: the members of s that o contains too. */
  method Intersect(s: set<string>, o: set<string>) returns (r: set<string>)
    ensures r == s * o
  {
    r := {};
    var todo := s;
    while todo != {}
      invariant todo <= s
      invariant r == (s - todo) * o
      decreases |todo|
    {
      var v :| v in todo;
      if v in o {
        r := r + {v};
      }
      todo := todo - {v};
    }
  }

  /** Every member of s is connected to every other member. */
  predicate Clique(g: Network, s: set<string>)
  {
    forall k, x :: k in s && x in s && x != k ==> x in Adj(g, k)
  }

  /** k is connected to every other member of s. */
  predicate ConnectedToAll(g: Network, s: set<string>, k: string)
  {
    forall x :: x in s && x != k ==> x in Adj(g, k)
  }

  /** `fullyConnected`: whether s is a group of computers all connected to
      each other. */
  method FullyConnected(g: Network, s: set<string>) returns (r: bool)
    ensures r <==> Clique(g, s)
  {
    var todo := s;
    while todo != {}
      invariant todo <= s
      invariant forall k :: k in s - todo ==> ConnectedToAll(g, s, k)
      decreases |todo|
    {
      var k :| k in todo;
      var c := Adj(g, k);
      var rest := s;
      while rest != {}
        invariant rest <= s
        invariant forall x :: x in s - rest && x != k ==> x in c
        decreases |rest|
      {
        var x :| x in rest;
        if x != k && x !in c {
          return false;
        }
        rest := rest - {x};
      }
      todo := todo - {k};
    }
    assert s - todo == s;
    return true;
  }

  /** `strings.Cut(l, "-")`: the text before and after the first '-'. */
  function Cut(l: string): (r: Option<(string, string)>)
    ensures r.None? <==> '-' !in l
    ensures r.Some? ==> l == r.value.0 + "-" + r.value.1 && '-' !in r.value.0
  {
    if l == [] then None
    else if l[0] == '-' then Some(([], l[1..]))
    else match Cut(l[1..])
      case None => None
      case Some((a, b)) =>
        assert l == [l[0]] + l[1..];
        Some(([l[0]] + a, b))
  }

  /** The connection a-b added to the network, in both directions. */
  function Link(g: Network, a: string, b: string): Network
  {
    var g1 := g[a := Adj(g, a) + {b}];
    g1[b := Adj(g1, b) + {a}]
  }

  lemma LinkAdj(g: Network, a: string, b: string, x: string)
    ensures Adj(Link(g, a, b), x) == Adj(g, x) + (if x == a then {b} else {}) + (if x == b then {a} else {})
    ensures x in Link(g, a, b) <==> x in g || x == a || x == b
  {
  }

  /** The network the input lines describe, or the first line without '-'. */
  function Computers(lines: seq<string>): Result<Network>
  {
    if lines == [] then Ok(map[])
    else match Computers(lines[..|lines| - 1])
      case Err(e) => Err(e)
      case Ok(g) =>
        match Cut(lines[|lines| - 1])
          case None => Err("Invalid input line")
          case Some((a, b)) => Ok(Link(g, a, b))
  }

  /** Line i connects a and b, in either order. */
  predicate LineLinks(lines: seq<string>, i: int, a: string, b: string)
  {
    0 <= i < |lines| && Cut(lines[i]).Some? && (Cut(lines[i]).value == (a, b) || Cut(lines[i]).value == (b, a))
  }

  ghost predicate Linked(lines: seq<string>, a: string, b: string)
  {
    exists i :: LineLinks(lines, i, a, b)
  }

  ghost predicate Malformed(lines: seq<string>)
  {
    exists i :: 0 <= i < |lines| && '-' !in lines[i]
  }

  /** `makeComputers` fails exactly on a line without '-'. */
  lemma {:induction false} ComputersErr(lines: seq<string>)
    ensures Computers(lines).Err? <==> Malformed(lines)
  {
    if lines != [] {
      var n := |lines| - 1;
      var p := lines[..n];
      ComputersErr(p);
      if Computers(p).Err? {
        var i :| 0 <= i < |p| && '-' !in p[i];
        assert lines[i] == p[i];
      } else if '-' in lines[n] {
        forall i | 0 <= i < |lines| ensures '-' in lines[i] {
          if i < n { assert lines[i] == p[i]; }
        }
      }
    }
  }

  /** Otherwise b is a neighbour of a exactly when some line connects
      them. */
  lemma {:induction false} ComputersAdj(lines: seq<string>)
    requires Computers(lines).Ok?
    ensures forall a, b :: b in Adj(Computers(lines).value, a) <==> Linked(lines, a, b)
  {
    if lines != [] {
      var n := |lines| - 1;
      var p := lines[..n];
      ComputersAdj(p);
      var g := Computers(p).value;
      var (a, b) := Cut(lines[n]).value;
      forall x, y ensures y in Adj(Link(g, a, b), x) <==> Linked(lines, x, y) {
        AdjStep(lines, x, y);
      }
    }
  }

  /** One line more: the neighbours before it, and the two ends of the line. */
  lemma AdjStep(lines: seq<string>, x: string, y: string)
    requires lines != [] && Computers(lines).Ok?
    requires var p := lines[..|lines| - 1]; Computers(p).Ok? && (y in Adj(Computers(p).value, x) <==> Linked(p, x, y))
    ensures y in Adj(Computers(lines).value, x) <==> Linked(lines, x, y)
  {
    var n := |lines| - 1;
    var p := lines[..n];
    var (a, b) := Cut(lines[n]).value;
    LinkAdj(Computers(p).value, a, b, x);
    LinkedStep(lines, x, y);
  }

  /** Some line links x and y exactly when an earlier line or the last one does. */
  lemma LinkedStep(lines: seq<string>, x: string, y: string)
    requires lines != [] && Cut(lines[|lines| - 1]).Some?
    ensures var p := lines[..|lines| - 1]; var (a, b) := Cut(lines[|lines| - 1]).value;
      Linked(lines, x, y) <==> Linked(p, x, y) || (x, y) == (a, b) || (x, y) == (b, a)
  {
    var n := |lines| - 1;
    var p := lines[..n];
    var (a, b) := Cut(lines[n]).value;
    if Linked(p, x, y) {
      var i :| LineLinks(p, i, x, y);
      assert LineLinks(lines, i, x, y);
    }
    if Linked(lines, x, y) {
      var i :| LineLinks(lines, i, x, y);
      if i < n { assert LineLinks(p, i, x, y); }
    }
    if (x, y) == (a, b) || (x, y) == (b, a) { assert LineLinks(lines, n, x, y); }
  }

  /** Every computer in the network has a neighbour. */
  lemma {:induction false} ComputersNonEmpty(lines: seq<string>)
    requires Computers(lines).Ok?
    ensures forall a :: a in Computers(lines).value ==> Computers(lines).value[a] != {}
  {
    if lines != [] {
      var p := lines[..|lines| - 1];
      ComputersNonEmpty(p);
      var g := Computers(p).value;
      var (a, b) := Cut(lines[|lines| - 1]).value;
      forall x | x in Link(g, a, b) ensures Link(g, a, b)[x] != {} {
        LinkAdj(g, a, b, x);
      }
    }
  }

  /** The neighbour relation is symmetric. */
  lemma ComputersSymmetric(lines: seq<string>, a: string, b: string)
    requires Computers(lines).Ok?
    ensures b in Adj(Computers(lines).value, a) <==> a in Adj(Computers(lines).value, b)
  {
    ComputersAdj(lines);
    if Linked(lines, a, b) {
      var i :| LineLinks(lines, i, a, b);
      assert LineLinks(lines, i, b, a);
    }
    if Linked(lines, b, a) {
      var i :| LineLinks(lines, i, b, a);
      assert LineLinks(lines, i, a, b);
    }
  }

  /** `makeComputers`. */
  method MakeComputers(lines: seq<string>) returns (r: Result<Network>)
    ensures r == Computers(lines)
  {
    var comps: Network := map[];
    for i := 0 to |lines|
      invariant Computers(lines[..i]) == Ok(comps)
    {
      assert lines[..i + 1][..i] == lines[..i];
      var cut := Cut(lines[i]);
      if cut.None? {
        ErrStays(lines, i + 1);
        return Err("Invalid input line");
      }
      var (a, b) := cut.value;
      comps := Connect(comps, a, b);
      assert lines[..i + 1][i] == lines[i];
    }
    assert lines[..|lines|] == lines;
    return Ok(comps);
  }

  /** The body of `makeComputers`' loop: make room for a and b, then
      connect them both ways. */
  method Connect(g: Network, a: string, b: string) returns (comps: Network)
    ensures comps == Link(g, a, b)
  {
    comps := g;
    if a !in comps {
      comps := comps[a := {}];
    }
    if b !in comps {
      comps := comps[b := {}];
    }
    comps := comps[a := comps[a] + {b}];
    comps := comps[b := comps[b] + {a}];
  }

  /** An invalid line ends the construction for every later line too. */
  lemma {:induction false} ErrStays(lines: seq<string>, i: nat)
    requires i <= |lines| && Computers(lines[..i]) == Err("Invalid input line")
    ensures Computers(lines) == Err("Invalid input line")
    decreases |lines| - i
  {
    if i < |lines| {
      assert lines[..i + 1][..i] == lines[..i];
      ErrStays(lines, i + 1);
    } else {
      assert lines[..i] == lines;
    }
  }

  // --------------------------------------------------------------- part 1

  /** The name starts with 't' (the caller rules out the empty name). */
  predicate StartsT(a: string)
  {
    |a| >= 1 && a[0] == 't'
  }

  /** The groups part 1 records: a, its neighbour b and a neighbour c of b
      that is a neighbour of a too, for every a starting with 't'. */
  function Triangles(g: Network): set<set<string>>
  {
    set a, b, c | a in g && StartsT(a) && b in g[a] && c in Adj(g, b) && c in g[a] :: {a, b, c}
  }

  function TriangleKeys(g: Network): set<string>
  {
    KeysFrom(g, g.Keys)
  }

  /** The key recorded for the group a, b, c. */
  function TriKey(a: string, b: string, c: string): string
  {
    ToKey({a, b, c})
  }

  /** The keys recorded for the first members in A. */
  function KeysFrom(g: Network, A: set<string>): set<string>
  {
    set a, b, c | a in A && a in g && StartsT(a) && b in g[a] && c in Adj(g, b) && c in g[a] :: TriKey(a, b, c)
  }

  /** The keys recorded for the first member a. */
  function KeysAt(g: Network, a: string): set<string>
    requires a in g
  {
    Seconds(g, a, g[a])
  }

  /** The keys recorded for the first member a and second members in B. */
  function Seconds(g: Network, a: string, B: set<string>): set<string>
    requires a in g
  {
    set b, c | b in B && c in Adj(g, b) && c in g[a] :: TriKey(a, b, c)
  }

  /** The keys recorded for a, b and third members in C. */
  function Thirds(g: Network, a: string, b: string, C: set<string>): set<string>
    requires a in g
  {
    set c | c in C && c in g[a] :: TriKey(a, b, c)
  }

  lemma KeysFromStep(g: Network, A: set<string>, a: string)
    requires a in g
    ensures KeysFrom(g, A + {a}) == KeysFrom(g, A) + (if StartsT(a) then KeysAt(g, a) else {})
  {
  }

  lemma SecondsStep(g: Network, a: string, B: set<string>, b: string)
    requires a in g
    ensures Seconds(g, a, B + {b}) == Seconds(g, a, B) + Thirds(g, a, b, Adj(g, b))
  {
  }

  /** A third member c that is a neighbour of a adds its key. */
  lemma ThirdsIn(g: Network, a: string, b: string, C: set<string>, seen: set<string>, before: set<string>, c: string)
    requires a in g && c in g[a] && before == seen + Thirds(g, a, b, C)
    ensures before + {TriKey(a, b, c)} == seen + Thirds(g, a, b, C + {c})
  {
    ThirdsUnion(g, a, b, C, c);
    UnionStep(seen, Thirds(g, a, b, C), Thirds(g, a, b, C + {c}), {TriKey(a, b, c)}, before, before + {TriKey(a, b, c)});
  }

  /** A third member c that is not a neighbour of a adds nothing. */
  lemma ThirdsOut(g: Network, a: string, b: string, C: set<string>, seen: set<string>, before: set<string>, c: string)
    requires a in g && c !in g[a] && before == seen + Thirds(g, a, b, C)
    ensures before == seen + Thirds(g, a, b, C + {c})
  {
    ThirdsUnion(g, a, b, C, c);
  }

  lemma ThirdsUnion(g: Network, a: string, b: string, C: set<string>, c: string)
    requires a in g
    ensures Thirds(g, a, b, C + {c}) == Thirds(g, a, b, C) + (if c in g[a] then {TriKey(a, b, c)} else {})
  {
  }

  /** Adding the same keys to the recorded set and to its description. */
  lemma UnionStep<T>(seen: set<T>, was: set<T>, now: set<T>, extra: set<T>, before: set<T>, after: set<T>)
    requires before == seen + was && now == was + extra && after == before + extra
    ensures after == seen + now
  {
  }

  /** The inner loop of `part1`: the keys for every third member c. */
  method AddThirds(g: Network, a: string, b: string, seen: set<string>) returns (r: set<string>)
    requires a in g
    ensures r == seen + Thirds(g, a, b, Adj(g, b))
  {
    r := seen;
    var todo := Adj(g, b);
    ghost var done: set<string> := {};
    while todo != {}
      invariant done + todo == Adj(g, b)
      invariant r == seen + Thirds(g, a, b, done)
      decreases |todo|
    {
      var c :| c in todo;
      if c in g[a] {
        ThirdsIn(g, a, b, done, seen, r, c);
        r := r + {TriKey(a, b, c)};
      } else {
        ThirdsOut(g, a, b, done, seen, r, c);
      }
      done := done + {c};
      todo := todo - {c};
    }
  }

  /** The middle loop of `part1`: the keys for every second member b. */
  method AddSeconds(g: Network, a: string, seen: set<string>) returns (r: set<string>)
    requires a in g
    ensures r == seen + KeysAt(g, a)
  {
    r := seen;
    var todo := g[a];
    ghost var done: set<string> := {};
    while todo != {}
      invariant done + todo == g[a]
      invariant r == seen + Seconds(g, a, done)
      decreases |todo|
    {
      var b :| b in todo;
      SecondsStep(g, a, done, b);
      r := AddThirds(g, a, b, r);
      done := done + {b};
      todo := todo - {b};
    }
  }

  /** `part1`: the number of different keys recorded. Go's `a[0]` fails on
      the empty name. */
  method Part1(lines: seq<string>) returns (r: Result<int>)
    ensures Computers(lines).Err? ==> r == Err(Computers(lines).msg)
    ensures Computers(lines).Ok? ==>
      r == if "" in Computers(lines).value then Err("index out of range")
           else Ok(|TriangleKeys(Computers(lines).value)|)
  {
    var made := MakeComputers(lines);
    if made.Err? {
      return Err(made.msg);
    }
    var g := made.value;
    var seen: set<string> := {};
    var todo := g.Keys;
    ghost var done: set<string> := {};
    while todo != {}
      invariant done + todo == g.Keys
      invariant "" !in done
      invariant seen == KeysFrom(g, done)
      decreases |todo|
    {
      var a :| a in todo;
      if a == "" {
        return Err("index out of range");
      }
      ghost var before := seen;
      if a[0] == 't' {
        seen := AddSeconds(g, a, seen);
      }
      KeysFromNext(g, done, before, a, seen);
      done := done + {a};
      todo := todo - {a};
    }
    return Ok(|seen|);
  }

  lemma KeysFromNext(g: Network, A: set<string>, before: set<string>, a: string, after: set<string>)
    requires a in g && before == KeysFrom(g, A)
    requires after == if StartsT(a) then before + KeysAt(g, a) else before
    ensures after == KeysFrom(g, A + {a})
  {
    KeysFromStep(g, A, a);
    var extra := if StartsT(a) then KeysAt(g, a) else {};
    UnionStep({}, KeysFrom(g, A), KeysFrom(g, A + {a}), extra, before, after);
  }

  /** Every connection goes both ways. */
  predicate Symmetric(g: Network)
  {
    forall a, b :: a in g && b in g[a] ==> a in Adj(g, b)
  }

  /** No computer is connected to itself. */
  predicate NoSelfLinks(g: Network)
  {
    forall a :: a in g ==> a !in g[a]
  }

  /** Every computer of the network has a name. */
  predicate Named(g: Network)
  {
    forall a :: a in g ==> Name(a) && Names(g[a])
  }

  lemma ComputersSymmetricAll(lines: seq<string>)
    requires Computers(lines).Ok?
    ensures Symmetric(Computers(lines).value)
  {
    var g := Computers(lines).value;
    forall a, b | a in g && b in g[a] ensures a in Adj(g, b) {
      ComputersSymmetric(lines, a, b);
    }
  }

  /** Without connections of a computer to itself, the groups part 1
      records are exactly the groups of three computers, all connected to
      each other, one of them with a name starting with 't'. */
  lemma TriangleMeaning(g: Network, t: set<string>)
    requires Symmetric(g) && NoSelfLinks(g)
    ensures t in Triangles(g) <==> |t| == 3 && Clique(g, t) && exists a :: a in t && StartsT(a)
  {
    if t in Triangles(g) {
      TriangleSound(g, t);
    }
    if |t| == 3 && Clique(g, t) && exists a :: a in t && StartsT(a) {
      var a :| a in t && StartsT(a);
      TriangleComplete(g, t, a);
    }
  }

  lemma TriangleSound(g: Network, t: set<string>)
    requires Symmetric(g) && NoSelfLinks(g) && t in Triangles(g)
    ensures |t| == 3 && Clique(g, t) && exists a :: a in t && StartsT(a)
  {
    var a, b, c :| a in g && StartsT(a) && b in g[a] && c in Adj(g, b) && c in g[a] && t == {a, b, c};
    assert b in g;
    assert a !in g[a] && b !in g[b];
    DistinctThree(a, b, c);
    TriangleClique(g, a, b, c);
    assert a in t;
  }

  /** Three different members make a set of three. */
  lemma DistinctThree<T>(a: T, b: T, c: T)
    requires a != b && b != c && a != c
    ensures |{a, b, c}| == 3
  {
    assert {a, b, c} == {a} + {b} + {c};
  }

  /** Three computers connected pairwise form a clique. */
  lemma TriangleClique(g: Network, a: string, b: string, c: string)
    requires Symmetric(g) && a in g && b in g[a] && c in Adj(g, b) && c in g[a]
    ensures Clique(g, {a, b, c})
  {
    assert b in g;
    assert a in Adj(g, b) && a in Adj(g, c) && b in Adj(g, c);
  }

  lemma TriangleComplete(g: Network, t: set<string>, a: string)
    requires |t| == 3 && Clique(g, t) && a in t && StartsT(a)
    ensures t in Triangles(g)
  {
    var b, c := ThreeOf(t, a);
    assert b in Adj(g, a) && c in Adj(g, a) && c in Adj(g, b);
    assert a in g;
  }

  /** The other two members of a set of three. */
  lemma ThreeOf<T>(t: set<T>, a: T) returns (b: T, c: T)
    requires |t| == 3 && a in t
    ensures t == {a, b, c} && a != b && b != c && a != c
  {
    assert |t - {a}| == 2;
    b :| b in t - {a};
    assert |t - {a} - {b}| == 1;
    c :| c in t - {a} - {b};
    assert t - {a} - {b} == {c} by {
      forall x | x in t - {a} - {b} ensures x == c {
        if x != c { assert |{x, c}| == 2; SubsetSize({x, c}, t - {a} - {b}); }
      }
    }
    assert t == (t - {a} - {b}) + {a} + {b};
  }

  /** A subset is no larger than the set. */
  lemma {:induction false} SubsetSize<T>(a: set<T>, b: set<T>)
    requires a <= b
    ensures |a| <= |b|
    decreases |b|
  {
    if a != {} {
      var x :| x in a;
      SubsetSize(a - {x}, b - {x});
    }
  }

  /** With named computers, part 1 counts the groups themselves. */
  lemma TriangleKeysCount(g: Network)
    requires Named(g)
    ensures |TriangleKeys(g)| == |Triangles(g)|
  {
    var tri := Triangles(g);
    forall t | t in tri ensures Names(t) {
      var a, b, c :| a in g && StartsT(a) && b in g[a] && c in Adj(g, b) && c in g[a] && t == {a, b, c};
    }
    TriangleKeysImage(g);
    KeyImageSize(tri);
  }

  /** The recorded keys are the keys of the groups. */
  lemma TriangleKeysImage(g: Network)
    ensures TriangleKeys(g) == KeyImage(Triangles(g))
  {
    forall k | k in TriangleKeys(g) ensures k in KeyImage(Triangles(g)) {
      var a, b, c :| a in g.Keys && a in g && StartsT(a) && b in g[a] && c in Adj(g, b) && c in g[a] && k == TriKey(a, b, c);
      assert {a, b, c} in Triangles(g);
    }
    forall k | k in KeyImage(Triangles(g)) ensures k in TriangleKeys(g) {
      var t :| t in Triangles(g) && k == ToKey(t);
      var a, b, c :| a in g && StartsT(a) && b in g[a] && c in Adj(g, b) && c in g[a] && t == {a, b, c};
      assert k == TriKey(a, b, c);
    }
  }

  function KeyImage(S: set<set<string>>): set<string>
  {
    set t | t in S :: ToKey(t)
  }

  /** Distinct sets of names have distinct keys, so the keys are as many
      as the sets. */
  lemma {:induction false} KeyImageSize(S: set<set<string>>)
    requires forall t :: t in S ==> Names(t)
    ensures |KeyImage(S)| == |S|
    decreases |S|
  {
    if S != {} {
      var t :| t in S;
      KeyImageSize(S - {t});
      assert KeyImage(S) == KeyImage(S - {t}) + {ToKey(t)};
      if ToKey(t) in KeyImage(S - {t}) {
        var u :| u in S - {t} && ToKey(u) == ToKey(t);
        KeyInjective(u, t);
      }
    }
  }

  // ----------------------------------------------------------- the queue

  type Buckets = seq<seq<set<string>>>

  /** The buckets after `add`'s loop has made room for size n. */
  function Grown(ss: Buckets, n: nat): (r: Buckets)
    ensures |r| == if n < |ss| then |ss| else n + 1
    ensures forall b :: 0 <= b < |ss| ==> r[b] == ss[b]
    ensures forall b :: |ss| <= b < |r| ==> r[b] == []
  {
    if n < |ss| then ss else ss + seq(n + 1 - |ss|, _ => [])
  }

  /** Every set held in some bucket. */
  ghost function Content(ss: Buckets): set<set<string>>
  {
    set b, i | 0 <= b < |ss| && 0 <= i < |ss[b]| :: ss[b][i]
  }

  /** How many sets the buckets hold. */
  function Count(ss: Buckets): nat
  {
    if ss == [] then 0 else Count(ss[..|ss| - 1]) + |ss[|ss| - 1]|
  }

  lemma {:induction false} CountUpdate(ss: Buckets, b: nat, x: seq<set<string>>)
    requires b < |ss|
    ensures Count(ss[b := x]) == Count(ss) - |ss[b]| + |x|
    decreases |ss|
  {
    var n := |ss| - 1;
    assert ss[b := x][..n] == if b < n then ss[..n][b := x] else ss[..n];
    if b < n {
      CountUpdate(ss[..n], b, x);
    }
  }

  lemma {:induction false} CountGrown(ss: Buckets, n: nat)
    ensures Count(Grown(ss, n)) == Count(ss)
    decreases n + 1 - |ss|
  {
    var r := Grown(ss, n);
    if n == |ss| {
      assert r[..|r| - 1] == ss;
    } else if n > |ss| {
      assert r[..|r| - 1] == Grown(ss, n - 1);
      CountGrown(ss, n - 1);
    }
  }

  /** Putting s in bucket b adds one set and s to the content. */
  lemma AddContent(ss: Buckets, n: nat, s: set<string>)
    ensures var g := Grown(ss, n); Content(g[n := g[n] + [s]]) == Content(ss) + {s}
    ensures var g := Grown(ss, n); Count(g[n := g[n] + [s]]) == Count(ss) + 1
  {
    var g := Grown(ss, n);
    var r := g[n := g[n] + [s]];
    assert s == r[n][|g[n]|];
    forall t | t in Content(r) ensures t in Content(ss) + {s} {
      var b, i :| 0 <= b < |r| && 0 <= i < |r[b]| && r[b][i] == t;
      if b != n || i < |g[n]| { assert t == ss[b][i]; }
    }
    forall t | t in Content(ss) ensures t in Content(r) {
      var b, i :| 0 <= b < |ss| && 0 <= i < |ss[b]| && ss[b][i] == t;
      assert r[b][i] == t;
    }
    CountGrown(ss, n);
    CountUpdate(g, n, g[n] + [s]);
  }

  lemma EmptyContent(ss: Buckets)
    requires forall b :: 0 <= b < |ss| ==> ss[b] == []
    ensures Content(ss) == {}
  {
  }

  /** Taking the first set out of bucket b removes one set; the others
      stay. */
  lemma TakeContent(ss: Buckets, b: nat)
    requires b < |ss| && ss[b] != []
    ensures var r := ss[b := ss[b][1..]]; Content(r) <= Content(ss) && Content(ss) - {ss[b][0]} <= Content(r)
    ensures Count(ss[b := ss[b][1..]]) == Count(ss) - 1
    ensures ss[b][0] in Content(ss)
  {
    var r := ss[b := ss[b][1..]];
    forall t | t in Content(r) ensures t in Content(ss) {
      var c, i :| 0 <= c < |r| && 0 <= i < |r[c]| && r[c][i] == t;
      if c == b { assert t == ss[b][i + 1]; } else { assert t == ss[c][i]; }
    }
    forall t | t in Content(ss) - {ss[b][0]} ensures t in Content(r) {
      var c, i :| 0 <= c < |ss| && 0 <= i < |ss[c]| && ss[c][i] == t;
      if c == b { assert i > 0 && t == r[b][i - 1]; } else { assert t == r[c][i]; }
    }
    assert ss[b][0] == ss[b][0];
    CountUpdate(ss, b, ss[b][1..]);
  }

  /** `setqueue` as written: bucket n holds the queued sets of size n, and
      `biggest` is meant to be the largest bucket that is not empty. */
  class SetQueue {
    var sets: Buckets
    var biggest: int

    /** The zero value `var pq setqueue`. */
    constructor()
      ensures sets == [] && biggest == 0
    {
      sets := [];
      biggest := 0;
    }

    /** `add`: put s in the bucket for its size; `biggest` changes only
        when new buckets are needed. */
    method Add(s: set<string>)
      modifies this
      ensures sets == Grown(old(sets), |s|)[|s| := Grown(old(sets), |s|)[|s|] + [s]]
      ensures biggest == if |s| >= |old(sets)| then |s| else old(biggest)
      ensures Content(sets) == Content(old(sets)) + {s} && Count(sets) == Count(old(sets)) + 1
    {
      while |s| >= |sets|
        invariant |old(sets)| <= |sets| <= (if |s| < |old(sets)| then |old(sets)| else |s| + 1)
        invariant sets == old(sets) + seq(|sets| - |old(sets)|, _ => [])
        invariant biggest == if |sets| > |old(sets)| then |s| else old(biggest)
        decreases |s| + 1 - |sets|
      {
        sets := sets + [[]];
        biggest := |s|;
      }
      assert sets == Grown(old(sets), |s|);
      AddContent(old(sets), |s|, s);
      sets := sets[|s| := sets[|s|] + [s]];
    }

    /** `pop`: take the first set of bucket `biggest`, then lower `biggest`
        past empty buckets. Go fails on a bad index, and the program stops
        when `biggest` falls to 0, even if the set just taken is wanted. */
    method Pop() returns (r: Result<set<string>>)
      modifies this
      ensures !(0 <= old(biggest) < |old(sets)|) || old(sets)[old(biggest)] == [] ==>
        r == Err("index out of range") && sets == old(sets) && biggest == old(biggest)
      ensures 0 <= old(biggest) < |old(sets)| && old(sets)[old(biggest)] != [] ==>
        var B := old(biggest);
        sets == old(sets)[B := old(sets)[B][1..]] &&
        (r.Ok? ==> r.value == old(sets)[B][0] && 0 <= biggest <= B && (biggest == B || 1 <= biggest) &&
                   sets[biggest] != [] && forall b :: biggest < b <= B ==> sets[b] == []) &&
        (r.Err? ==> r.msg == "sequeue is empty" && biggest == (if B == 0 then -1 else 0) &&
                    forall b :: 0 <= b <= B && (b == B || 1 <= b) ==> sets[b] == [])
      ensures r.Ok? ==> r.value in Content(old(sets)) && Content(sets) <= Content(old(sets)) &&
                        Count(sets) == Count(old(sets)) - 1
    {
      if !(0 <= biggest < |sets|) || sets[biggest] == [] {
        return Err("index out of range");
      }
      TakeContent(sets, biggest);
      var x := sets[biggest][0];
      sets := sets[biggest := sets[biggest][1..]];
      ghost var B := biggest;
      while sets[biggest] == []
        invariant sets == old(sets)[B := old(sets)[B][1..]]
        invariant 0 <= biggest <= B && (biggest == B || 1 <= biggest)
        invariant forall b :: biggest < b <= B ==> sets[b] == []
        decreases biggest
      {
        biggest := biggest - 1;
        if biggest <= 0 {
          return Err("sequeue is empty");
        }
      }
      return Ok(x);
    }
  }

  /** Popping the only queued set stops the program: part 2 on the single
      line "a-b" queues just {a, b} and so reaches this. */
  method LonePop() returns (r: Result<set<string>>)
    ensures r == Err("sequeue is empty")
  {
    var q := new SetQueue();
    assert |{"a", "b"}| == 2;
    q.Add({"a", "b"});
    assert Grown([], 2) == [[], [], []];
    assert q.biggest == 2;
    assert |q.sets| == 3 && q.sets[0] == [] && q.sets[1] == [] && q.sets[2] == [{"a", "b"}];
    r := q.Pop();
  }

  /** A set added after `biggest` has dropped below its size waits behind
      smaller ones: {a} is popped while {a, b} is queued. */
  method StrandedPop() returns (r: Result<set<string>>, q: SetQueue)
    ensures r == Ok({"a"}) && {"a", "b"} in Content(q.sets)
  {
    q := StrandedSetup();
    assert Grown(q.sets, 2) == q.sets && [] + [{"a", "b"}] == [{"a", "b"}];
    q.Add({"a", "b"});
    assert |{"a", "b"}| == 2;
    assert q.biggest == 1 && q.sets == [[], [{"a"}, {"b"}], [{"a", "b"}], []];
    r := q.Pop();
    assert q.sets[1] == [{"b"}] && {"a", "b"} == q.sets[2][0];
  }

  /** Queue {a, b, c}, {a} and {b}, and pop {a, b, c}: `biggest` drops to 1. */
  method StrandedSetup() returns (q: SetQueue)
    ensures fresh(q) && q.sets == [[], [{"a"}, {"b"}], [], []] && q.biggest == 1
  {
    q := new SetQueue();
    assert |{"a", "b", "c"}| == 3;
    q.Add({"a", "b", "c"});
    assert Grown([], 3) == [[], [], [], []] && [] + [{"a", "b", "c"}] == [{"a", "b", "c"}];
    StrandedSingles(q);
    var first := q.Pop();
    assert q.sets == [[], [{"a"}, {"b"}], [], []];
    assert q.sets[1] != [] && q.sets[2] == [] && q.sets[3] == [];
  }

  /** Queue {a} and {b} behind {a, b, c}. */
  method StrandedSingles(q: SetQueue)
    requires q.sets == [[], [], [], [{"a", "b", "c"}]] && q.biggest == 3
    modifies q
    ensures q.sets == [[], [{"a"}, {"b"}], [], [{"a", "b", "c"}]] && q.biggest == 3
  {
    ghost var start := q.sets;
    assert Grown(start, 1) == start && start[1] + [{"a"}] == [{"a"}];
    q.Add({"a"});
    assert q.sets == start[1 := [{"a"}]];
    ghost var mid := q.sets;
    assert Grown(mid, 1) == mid && mid[1] + [{"b"}] == [{"a"}, {"b"}];
    q.Add({"b"});
    assert q.sets == mid[1 := [{"a"}, {"b"}]];
  }

  /** Bucket n holds sets of size n, and `biggest` is the largest bucket
      that is not empty, or 0. */
  ghost predicate Sized(ss: Buckets, biggest: int)
  {
    0 <= biggest && (ss == [] ==> biggest == 0) && (ss != [] ==> biggest < |ss|) &&
    (biggest > 0 ==> ss[biggest] != []) &&
    (forall b :: biggest < b < |ss| ==> ss[b] == []) &&
    (forall b, i :: 0 <= b < |ss| && 0 <= i < |ss[b]| ==> |ss[b][i]| == b)
  }

  /** The intended `add` keeps the buckets sized. */
  lemma SizedAdd(ss: Buckets, biggest: int, s: set<string>)
    requires Sized(ss, biggest)
    ensures var g := Grown(ss, |s|); Sized(g[|s| := g[|s|] + [s]], if |s| > biggest then |s| else biggest)
  {
    var g := Grown(ss, |s|);
    var r := g[|s| := g[|s|] + [s]];
    forall b, i | 0 <= b < |r| && 0 <= i < |r[b]| ensures |r[b][i]| == b {
      if b != |s| || i < |g[b]| { assert r[b][i] == ss[b][i]; }
    }
  }

  /** The queue as intended: `add` raises `biggest` to the size of every
      larger set, and `pop` fails only on an empty queue. */
  class SizeQueue {
    var sets: Buckets
    var biggest: int

    /** Bucket n holds sets of size n, `biggest` is the largest bucket
        that is not empty, or 0. */
    ghost predicate Valid()
      reads this
    {
      Sized(sets, biggest)
    }

    constructor()
      ensures Valid() && sets == [] && biggest == 0
    {
      sets := [];
      biggest := 0;
    }

    method Add(s: set<string>)
      requires Valid()
      modifies this
      ensures Valid()
      ensures sets == Grown(old(sets), |s|)[|s| := Grown(old(sets), |s|)[|s|] + [s]]
      ensures biggest == if |s| > old(biggest) then |s| else old(biggest)
      ensures Content(sets) == Content(old(sets)) + {s} && Count(sets) == Count(old(sets)) + 1
    {
      while |s| >= |sets|
        invariant |old(sets)| <= |sets| <= (if |s| < |old(sets)| then |old(sets)| else |s| + 1)
        invariant sets == old(sets) + seq(|sets| - |old(sets)|, _ => [])
        invariant biggest == old(biggest)
        decreases |s| + 1 - |sets|
      {
        sets := sets + [[]];
      }
      assert sets == Grown(old(sets), |s|);
      AddContent(old(sets), |s|, s);
      SizedAdd(old(sets), old(biggest), s);
      sets := sets[|s| := sets[|s|] + [s]];
      if |s| > biggest {
        biggest := |s|;
      }
    }

    method Pop() returns (r: Result<set<string>>)
      requires Valid()
      modifies this
      ensures Valid()
      ensures r.Err? <==> Content(old(sets)) == {}
      ensures r.Err? ==> r.msg == "sequeue is empty" && sets == old(sets) && biggest == old(biggest)
      ensures r.Ok? ==>
        var B := old(biggest);
        sets == old(sets)[B := old(sets)[B][1..]] && r.value == old(sets)[B][0] &&
        0 <= biggest <= B && forall b :: biggest < b <= B ==> sets[b] == []
      ensures r.Ok? ==> r.value in Content(old(sets)) && (forall t :: t in Content(old(sets)) ==> |t| <= |r.value|)
      ensures r.Ok? ==> Content(sets) <= Content(old(sets)) && Content(old(sets)) - {r.value} <= Content(sets) &&
                        Count(sets) == Count(old(sets)) - 1
    {
      if sets == [] || sets[biggest] == [] {
        EmptyContent(sets);
        return Err("sequeue is empty");
      }
      TakeContent(sets, biggest);
      var x := sets[biggest][0];
      forall t | t in Content(sets) ensures |t| <= |x| {
        var b, i :| 0 <= b < |sets| && 0 <= i < |sets[b]| && sets[b][i] == t;
      }
      sets := sets[biggest := sets[biggest][1..]];
      ghost var B := biggest;
      while biggest > 0 && sets[biggest] == []
        invariant sets == old(sets)[B := old(sets)[B][1..]]
        invariant 0 <= biggest <= B
        invariant forall b :: biggest < b <= B ==> sets[b] == []
        decreases biggest
      {
        biggest := biggest - 1;
      }
      return Ok(x);
    }
  }

  // --------------------------------------------------------------- part 2

  /** The candidate `part2` queues for the connection k-v: the common
      neighbours of k and v, and k and v themselves. */
  function Initial(g: Network, k: string, v: string): set<string>
  {
    Adj(g, k) * Adj(g, v) + {k} + {v}
  }

  /** Every key the search can record. */
  ghost function Universe(g: Network): set<string>
  {
    (set t: set<string> | t <= g.Keys :: ToKey(t)) + (set k, v | k in g && v in g[k] :: TwoKey(k, v))
  }

  /** Every set ever queued is a non-empty set of computers. */
  ghost predicate Bounded(g: Network, added: set<set<string>>)
  {
    forall t :: t in added ==> t != {} && t <= g.Keys
  }

  /** Every set ever queued is still queued or was taken out and expanded. */
  ghost predicate Covered(added: set<set<string>>, content: set<set<string>>, popped: set<set<string>>)
  {
    content <= added && popped <= added && forall t :: t in added ==> t in content || t in popped
  }

  /** A set taken out and expanded was not a clique, and the keys of all
      its sets with one member less are recorded. */
  ghost predicate Expanded(g: Network, popped: set<set<string>>, seen: set<string>)
  {
    forall t :: t in popped ==> Done(g, t, seen)
  }

  /** t is not a clique, and the keys of its sets with one member less are
      recorded. */
  ghost predicate Done(g: Network, t: set<string>, seen: set<string>)
  {
    !Clique(g, t) && forall x :: x in t ==> ToKey(t - {x}) in seen
  }

  /** A recorded key is the key of a queued set or of a connection. */
  ghost predicate Keyed(g: Network, added: set<set<string>>, seen: set<string>)
  {
    forall key :: key in seen ==> KeyOf(added, key) || LinkKey(g, key)
  }

  ghost predicate KeyOf(added: set<set<string>>, key: string)
  {
    exists t :: t in added && ToKey(t) == key
  }

  ghost predicate LinkKey(g: Network, key: string)
  {
    exists k, v :: k in g && v in g[k] && key == TwoKey(k, v)
  }

  /** The candidate of every connection from a computer in done is queued. */
  ghost predicate Seeded(g: Network, added: set<set<string>>, done: set<string>)
  {
    forall k, v :: k in done && k in g && v in g[k] ==> Initial(g, k, v) in added
  }

  ghost predicate Searching(g: Network, content: set<set<string>>, added: set<set<string>>, popped: set<set<string>>, seen: set<string>)
  {
    Bounded(g, added) && Covered(added, content, popped) && Expanded(g, popped, seen) &&
    Keyed(g, added, seen) && Seeded(g, added, g.Keys)
  }

  /** The two halves of a connection's key are its two ends. */
  lemma TwoKeyMembers(a: string, b: string)
    ensures {Smaller(a, b), Larger(b, a)} == {a, b}
  {
    StrLeTotal(a, b);
    if StrLe(a, b) && StrLe(b, a) { StrLeAntisymmetric(a, b); }
  }

  /** Connections between named computers have the same key exactly when
      they join the same two computers. */
  lemma TwoKeyInjective(a: string, b: string, c: string, d: string)
    requires Name(a) && Name(b) && Name(c) && Name(d)
    ensures TwoKey(a, b) == TwoKey(c, d) <==> {a, b} == {c, d}
  {
    TwoKeyMembers(a, b);
    TwoKeyMembers(c, d);
    if TwoKey(a, b) == TwoKey(c, d) {
      assert Name(Smaller(a, b)) && Name(Smaller(c, d));
      CommaSplit(Smaller(a, b), Larger(b, a), Smaller(c, d), Larger(d, c));
    }
    if {a, b} == {c, d} {
      if a == d && b == c { TwoKeySymmetric(a, b); }
      else { assert a == c && b == d; }
    }
  }

  /** A set holding a clique but not itself a clique has a member outside
      the clique. */
  lemma OutsideMember(g: Network, c: set<string>, t: set<string>) returns (x: string)
    requires Clique(g, c) && !Clique(g, t) && c <= t
    ensures x in t && x !in c
  {
    var y, z :| y in t && z in t && z != y && z !in Adj(g, y);
    x := if y !in c then y else z;
  }

  /** Dropping a member outside c from a superset of c. */
  lemma Shrink(c: set<string>, t: set<string>, x: string)
    requires c <= t && x in t && x !in c
    ensures c <= t - {x} && |t - {x}| == |t| - 1
  {
  }

  /** A recorded key of a set of computers names a queued set, or the set
      has two members. */
  lemma KeyedSet(g: Network, added: set<set<string>>, seen: set<string>, u: set<string>)
    requires Named(g) && Bounded(g, added) && Keyed(g, added, seen)
    requires ToKey(u) in seen && u <= g.Keys
    ensures u in added || |u| == 2
  {
    assert Names(u);
    assert KeyOf(added, ToKey(u)) || LinkKey(g, ToKey(u));
    if KeyOf(added, ToKey(u)) {
      var w :| w in added && ToKey(w) == ToKey(u);
      assert Names(w) by { assert w <= g.Keys; }
      KeyInjective(w, u);
    } else {
      var k, v :| k in g && v in g[k] && ToKey(u) == TwoKey(k, v);
      assert Name(k) && Name(v);
      TwoKeyPair(u, k, v);
    }
  }

  /** The computers of a clique of three or more inside a queued set stay
      inside a set that is still queued. */
  lemma {:induction false} Descend(g: Network, content: set<set<string>>, added: set<set<string>>, popped: set<set<string>>, seen: set<string>,
                                   c: set<string>, t: set<string>)
    requires Named(g) && Searching(g, content, added, popped, seen)
    requires Clique(g, c) && |c| >= 3 && t in added && c <= t
    ensures exists q :: q in content && c <= q
    decreases |t|
  {
    if t in content {
      assert c <= t;
    } else {
      var u := DescendStep(g, content, added, popped, seen, c, t);
      Descend(g, content, added, popped, seen, c, u);
    }
  }

  /** One step of `Descend`: a set taken out and expanded has a smaller
      queued set that still holds the clique. */
  lemma DescendStep(g: Network, content: set<set<string>>, added: set<set<string>>, popped: set<set<string>>, seen: set<string>,
                    c: set<string>, t: set<string>) returns (u: set<string>)
    requires Named(g) && Searching(g, content, added, popped, seen)
    requires Clique(g, c) && |c| >= 3 && t in added && c <= t && t !in content
    ensures u in added && c <= u && |u| < |t|
  {
    assert t in popped;
    assert Done(g, t, seen);
    var x := OutsideMember(g, c, t);
    u := t - {x};
    assert ToKey(u) in seen;
    assert u <= g.Keys;
    assert Keyed(g, added, seen) && Bounded(g, added);
    KeyedSet(g, added, seen, u);
    Shrink(c, t, x);
    SubsetSize(c, u);
  }

  /** Every clique of two or more lies inside a set that is still queued. */
  lemma Covers(g: Network, content: set<set<string>>, added: set<set<string>>, popped: set<set<string>>, seen: set<string>,
               c: set<string>)
    requires Named(g) && Symmetric(g) && Searching(g, content, added, popped, seen)
    requires Clique(g, c) && |c| >= 2
    ensures exists q :: q in content && c <= q
  {
    var k :| k in c;
    assert |c - {k}| >= 1;
    var v :| v in c - {k};
    assert v in Adj(g, k);
    var init := Initial(g, k, v);
    assert init in added;
    assert c <= init by {
      forall x | x in c ensures x in init {
        if x != k && x != v { assert x in Adj(g, k) && x in Adj(g, v); }
      }
    }
    if |c| >= 3 {
      Descend(g, content, added, popped, seen, c, init);
    } else if !Clique(g, init) {
      CoversPair(g, content, added, popped, seen, c, k, v);
    }
  }

  /** The pair case of `Covers` when the candidate of k-v is not a clique:
      it holds a common neighbour x, and {k, v, x} is a clique of three. */
  lemma CoversPair(g: Network, content: set<set<string>>, added: set<set<string>>, popped: set<set<string>>, seen: set<string>,
                   c: set<string>, k: string, v: string)
    requires Named(g) && Symmetric(g) && Searching(g, content, added, popped, seen)
    requires |c| == 2 && k in c && v in c && k != v && k in g && v in g[k]
    requires !Clique(g, Initial(g, k, v))
    ensures exists q :: q in content && c <= q
  {
    var x := CommonNeighbour(g, k, v);
    assert Initial(g, k, v) in added;
    Descend(g, content, added, popped, seen, {k, v, x}, Initial(g, k, v));
    ThreeOrTwo(c, k, v);
  }

  /** A candidate that is not a clique holds a third computer connected to
      both ends of its connection. */
  lemma CommonNeighbour(g: Network, k: string, v: string) returns (x: string)
    requires Symmetric(g) && k in g && v in g[k] && k != v
    requires !Clique(g, Initial(g, k, v))
    ensures Clique(g, {k, v, x}) && |{k, v, x}| == 3 && {k, v, x} <= Initial(g, k, v)
  {
    var init := Initial(g, k, v);
    assert k in Adj(g, v);
    assert Clique(g, {k, v});
    x := OutsideMember(g, {k, v}, init);
    assert x in Adj(g, k) && x in Adj(g, v);
    var c3 := {k, v, x};
    assert |c3| == 3 by { assert c3 == {k} + {v} + {x}; }
    assert Clique(g, c3) by {
      assert k in Adj(g, x) && v in Adj(g, x);
    }
  }

  /** A set of two holding k and v is {k, v}. */
  lemma ThreeOrTwo<T>(c: set<T>, k: T, v: T)
    requires |c| == 2 && k in c && v in c && k != v
    ensures c == {k, v}
  {
    assert c == {k, v} + (c - {k, v});
    assert |c - {k, v}| == 0;
  }

  /** A largest queued set that turns out to be a clique is a largest
      clique. */
  lemma Maximal(g: Network, content: set<set<string>>, added: set<set<string>>, popped: set<set<string>>, seen: set<string>,
                s: set<string>)
    requires Named(g) && Symmetric(g) && Searching(g, content, added, popped, seen)
    requires s in content && forall t :: t in content ==> |t| <= |s|
    ensures forall c :: Clique(g, c) ==> |c| <= |s|
  {
    forall c | Clique(g, c) ensures |c| <= |s| {
      if |c| >= 2 {
        Covers(g, content, added, popped, seen, c);
        var q :| q in content && c <= q;
        SubsetSize(c, q);
      } else {
        assert s != {};
      }
    }
  }

  /** Every recorded key so far is the key of a connection whose candidate
      is queued. */
  ghost predicate SeedKeyed(g: Network, added: set<set<string>>, seen: set<string>)
  {
    forall key :: key in seen ==> exists k, v :: k in g && v in g[k] && key == TwoKey(k, v) && Initial(g, k, v) in added
  }

  /** A candidate is a non-empty set of computers. */
  lemma InitialBounded(g: Network, k: string, v: string)
    requires Symmetric(g) && k in g && v in g[k]
    ensures Initial(g, k, v) != {} && Initial(g, k, v) <= g.Keys
    ensures TwoKey(k, v) in Universe(g)
  {
    forall x | x in Initial(g, k, v) ensures x in g {
      if x != k && x != v { assert k in Adj(g, x); }
    }
    assert k in Adj(g, v);
  }

  /** A connection whose key is already recorded has its candidate queued. */
  lemma SeedRepeat(g: Network, added: set<set<string>>, seen: set<string>, k: string, v: string)
    requires Named(g) && SeedKeyed(g, added, seen) && k in g && v in g[k] && TwoKey(k, v) in seen
    ensures Initial(g, k, v) in added
  {
    var k', v' :| k' in g && v' in g[k'] && TwoKey(k, v) == TwoKey(k', v') && Initial(g, k', v') in added;
    TwoKeyInjective(k, v, k', v');
    if k != k' {
      assert k == v' && v == k';
      assert Initial(g, k, v) == Initial(g, k', v');
    }
  }

  /** Queuing the candidate of k-v under its key keeps the seeding facts. */
  lemma SeedAdd(g: Network, added: set<set<string>>, seen: set<string>, k: string, v: string)
    requires Symmetric(g) && k in g && v in g[k]
    requires Bounded(g, added) && SeedKeyed(g, added, seen) && seen <= Universe(g)
    ensures Bounded(g, added + {Initial(g, k, v)})
    ensures SeedKeyed(g, added + {Initial(g, k, v)}, seen + {TwoKey(k, v)})
    ensures seen + {TwoKey(k, v)} <= Universe(g)
  {
    InitialBounded(g, k, v);
    var init := Initial(g, k, v);
    forall key | key in seen + {TwoKey(k, v)}
      ensures exists k', v' :: k' in g && v' in g[k'] && key == TwoKey(k', v') && Initial(g, k', v') in added + {init}
    {
      if key == TwoKey(k, v) {
        assert init in added + {init};
      } else {
        var k', v' :| k' in g && v' in g[k'] && key == TwoKey(k', v') && Initial(g, k', v') in added;
        assert Initial(g, k', v') in added + {init};
      }
    }
  }

  /** The candidates from the computers in done and from k are queued. */
  lemma SeededStep(g: Network, before: set<set<string>>, added: set<set<string>>, done: set<string>, k: string)
    requires Seeded(g, before, done) && before <= added && k in g
    requires forall v :: v in g[k] ==> Initial(g, k, v) in added
    ensures Seeded(g, added, done + {k})
  {
  }

  /** The first loop of `part2` with the intended queue: the candidate of
      every connection, once per connection. */
  method SeedSizes(g: Network, q: SizeQueue) returns (seen: set<string>, ghost added: set<set<string>>)
    requires q.Valid() && Content(q.sets) == {} && Symmetric(g)
    modifies q
    ensures q.Valid() && Content(q.sets) == added && Bounded(g, added) && SeedKeyed(g, added, seen)
    ensures Named(g) ==> Seeded(g, added, g.Keys)
    ensures seen <= Universe(g) && (g == map[] ==> added == {})
  {
    seen := {};
    added := {};
    var todo := g.Keys;
    while todo != {}
      invariant todo <= g.Keys && q.Valid() && Content(q.sets) == added
      invariant Bounded(g, added) && SeedKeyed(g, added, seen) && seen <= Universe(g)
      invariant Named(g) ==> Seeded(g, added, g.Keys - todo)
      invariant g == map[] ==> added == {}
      decreases |todo|
    {
      var k :| k in todo;
      ghost var before := added;
      seen, added := SeedSizesFrom(g, q, k, seen, added);
      if Named(g) {
        SeededStep(g, before, added, g.Keys - todo, k);
        assert g.Keys - (todo - {k}) == g.Keys - todo + {k};
      }
      todo := todo - {k};
    }
  }

  /** The inner loop of the seeding: the connections from k. */
  method SeedSizesFrom(g: Network, q: SizeQueue, k: string, seen0: set<string>, ghost added0: set<set<string>>)
    returns (seen: set<string>, ghost added: set<set<string>>)
    requires q.Valid() && Content(q.sets) == added0 && Symmetric(g) && k in g
    requires Bounded(g, added0) && SeedKeyed(g, added0, seen0) && seen0 <= Universe(g)
    modifies q
    ensures q.Valid() && Content(q.sets) == added && Bounded(g, added) && SeedKeyed(g, added, seen) && seen <= Universe(g)
    ensures added0 <= added
    ensures Named(g) ==> forall v :: v in g[k] ==> Initial(g, k, v) in added
  {
    seen, added := seen0, added0;
    var c := g[k];
    var rest := c;
    while rest != {}
      invariant rest <= c && q.Valid() && Content(q.sets) == added && added0 <= added
      invariant Bounded(g, added) && SeedKeyed(g, added, seen) && seen <= Universe(g)
      invariant Named(g) ==> forall v :: v in c - rest ==> Initial(g, k, v) in added
      decreases |rest|
    {
      var v :| v in rest;
      var kk := TwoKey(k, v);
      if kk !in seen {
        SeedAdd(g, added, seen, k, v);
        seen := seen + {kk};
        var s := Intersect(c, Adj(g, v));
        s := s + {k} + {v};
        q.Add(s);
        added := added + {s};
      } else if Named(g) {
        SeedRepeat(g, added, seen, k, v);
      }
      rest := rest - {v};
    }
  }

  /** No clique is larger than s. */
  ghost predicate Largest(g: Network, s: set<string>)
  {
    forall c :: Clique(g, c) ==> |c| <= |s|
  }

  /** While the network has a computer, something is queued. */
  lemma QueueNonEmpty(g: Network, content: set<set<string>>, added: set<set<string>>, popped: set<set<string>>, seen: set<string>, k: string)
    requires Named(g) && Symmetric(g) && Searching(g, content, added, popped, seen)
    requires k in g && g[k] != {}
    ensures content != {}
  {
    var others := g[k] - {k};
    if others != {} {
      var v :| v in others;
      PairClique(g, k, v);
      Covers(g, content, added, popped, seen, {k, v});
    } else {
      QueueLone(g, content, added, popped, seen, k);
    }
  }

  lemma QueueLone(g: Network, content: set<set<string>>, added: set<set<string>>, popped: set<set<string>>, seen: set<string>, k: string)
    requires Searching(g, content, added, popped, seen)
    requires k in g && g[k] != {} && g[k] - {k} == {}
    ensures content != {}
  {
    LoneLoop(g, k);
    assert Initial(g, k, k) in added;
  }

  /** The two ends of a connection between different computers form a
      clique of two. */
  lemma PairClique(g: Network, k: string, v: string)
    requires Symmetric(g) && k in g && v in g[k] && v != k
    ensures Clique(g, {k, v}) && |{k, v}| == 2
  {
    assert k in Adj(g, v);
  }

  /** A computer connected only to itself has the candidate {k}. */
  lemma LoneLoop(g: Network, k: string)
    requires k in g && g[k] != {} && g[k] - {k} == {}
    ensures Initial(g, k, k) == {k} && Clique(g, {k})
  {
    var v :| v in g[k];
    assert g[k] == {k};
  }

  /** Taking s out keeps every queued set accounted for. */
  lemma PopCovered(added: set<set<string>>, before: set<set<string>>, after: set<set<string>>, popped: set<set<string>>, s: set<string>)
    requires Covered(added, before, popped) && s in before && after <= before && before - {s} <= after
    ensures Covered(added, after, popped + {s})
  {
  }

  /** The search facts while the members of s, taken out and not a
      clique, are being dropped one at a time. */
  ghost predicate Stage(g: Network, content: set<set<string>>, added: set<set<string>>, popped: set<set<string>>,
                        s: set<string>, seen: set<string>)
  {
    Bounded(g, added) && Covered(added, content, popped + {s}) && Expanded(g, popped, seen) && Keyed(g, added, seen) &&
    seen <= Universe(g) && (Named(g) ==> Seeded(g, added, g.Keys)) && s in added && !Clique(g, s)
  }

  /** Queuing o = s - {x} under its new key keeps the search facts. */
  lemma ExpandAdd(g: Network, content: set<set<string>>, added: set<set<string>>, popped: set<set<string>>, seen: set<string>,
                  s: set<string>, x: string)
    requires Stage(g, content, added, popped, s, seen) && x in s && ToKey(s - {x}) !in seen
    ensures Stage(g, content + {s - {x}}, added + {s - {x}}, popped, s, seen + {ToKey(s - {x})})
    ensures |Universe(g) - (seen + {ToKey(s - {x})})| == |Universe(g) - seen| - 1
  {
    var o := s - {x};
    NotCliqueSmaller(g, s, x);
    assert s <= g.Keys;
    InUniverse(g, seen, o);
    ExpandKeys(g, added, popped, seen, o);
    ExpandCovered(g, added, content, popped + {s}, o);
    if Named(g) { SeededMore(g, added, o); }
  }

  /** Queuing more sets keeps the seeded candidates queued. */
  lemma SeededMore(g: Network, added: set<set<string>>, o: set<string>)
    requires Seeded(g, added, g.Keys)
    ensures Seeded(g, added + {o}, g.Keys)
  {
  }

  /** A set that is not a clique keeps a member when one is dropped. */
  lemma NotCliqueSmaller(g: Network, s: set<string>, x: string)
    requires !Clique(g, s)
    ensures s - {x} != {}
  {
    var y, z :| y in s && z in s && z != y && z !in Adj(g, y);
    assert y in s - {x} || z in s - {x};
  }

  lemma ExpandCovered(g: Network, added: set<set<string>>, content: set<set<string>>, popped: set<set<string>>, o: set<string>)
    requires Bounded(g, added) && Covered(added, content, popped) && o != {} && o <= g.Keys
    ensures Bounded(g, added + {o}) && Covered(added + {o}, content + {o}, popped)
  {
  }

  /** The key of a set of computers is a key the search can record. */
  lemma InUniverse(g: Network, seen: set<string>, o: set<string>)
    requires o <= g.Keys && seen <= Universe(g) && ToKey(o) !in seen
    ensures seen + {ToKey(o)} <= Universe(g)
    ensures |Universe(g) - (seen + {ToKey(o)})| == |Universe(g) - seen| - 1
  {
    var u := Universe(g);
    assert ToKey(o) in u;
    assert (u - seen) - {ToKey(o)} == u - (seen + {ToKey(o)});
  }

  /** Recording the key of the queued set o keeps the key facts. */
  lemma ExpandKeys(g: Network, added: set<set<string>>, popped: set<set<string>>, seen: set<string>, o: set<string>)
    requires Expanded(g, popped, seen) && Keyed(g, added, seen)
    ensures Expanded(g, popped, seen + {ToKey(o)}) && Keyed(g, added + {o}, seen + {ToKey(o)})
  {
    var kk := ToKey(o);
    forall t | t in popped ensures Done(g, t, seen + {kk}) {
      assert Done(g, t, seen);
    }
    forall key | key in seen + {kk} ensures KeyOf(added + {o}, key) || LinkKey(g, key) {
      if key == kk {
        assert o in added + {o};
      } else if KeyOf(added, key) {
        var t :| t in added && ToKey(t) == key;
        assert t in added + {o};
      }
    }
  }

  /** Once all its smaller sets are recorded, s counts as expanded. */
  lemma ExpandDone(g: Network, popped: set<set<string>>, seen: set<string>, s: set<string>)
    requires Expanded(g, popped, seen) && Done(g, s, seen)
    ensures Expanded(g, popped + {s}, seen)
  {
  }

  /** The second loop of `part2` with the intended queue: take out a
      largest queued set; report it if it is a clique, else queue its
      sets with one member less that have no recorded key. */
  method SearchSizes(g: Network, q: SizeQueue, seen0: set<string>, ghost added0: set<set<string>>) returns (r: Result<string>)
    requires Symmetric(g) && q.Valid() && Content(q.sets) == added0
    requires Bounded(g, added0) && Keyed(g, added0, seen0) && seen0 <= Universe(g)
    requires Named(g) ==> Seeded(g, added0, g.Keys)
    modifies q
    ensures r.Ok? ==> exists s :: Clique(g, s) && r.value == ToKey(s) && (Named(g) ==> Largest(g, s))
    ensures r.Err? ==> r.msg == "sequeue is empty"
    ensures g == map[] ==> r.Err?
    ensures Named(g) && (forall a :: a in g ==> g[a] != {}) && g != map[] ==> r.Ok?
  {
    var seen := seen0;
    ghost var added := added0;
    ghost var popped: set<set<string>> := {};
    while true
      invariant q.Valid() && Progress(g, Content(q.sets), added, popped, seen)
      decreases |Universe(g) - seen| + Count(q.sets)
    {
      ghost var before := Content(q.sets);
      var p := q.Pop();
      if p.Err? {
        EmptyQueue(g, before, added, popped, seen);
        return Err(p.msg);
      }
      var s := p.value;
      var full := FullyConnected(g, s);
      if full {
        if Named(g) {
          Maximal(g, before, added, popped, seen, s);
        }
        return Ok(ToKey(s));
      }
      PopStage(g, before, Content(q.sets), added, popped, seen, s);
      seen, added := ExpandSizes(g, q, s, seen, added, popped);
      StageDone(g, Content(q.sets), added, popped, seen, s);
      popped := popped + {s};
    }
  }

  /** The intended queue runs empty only if some computer has no
      connection or the network is empty. */
  lemma EmptyQueue(g: Network, content: set<set<string>>, added: set<set<string>>, popped: set<set<string>>, seen: set<string>)
    requires Symmetric(g) && Progress(g, content, added, popped, seen)
    ensures Named(g) && (forall a :: a in g ==> g[a] != {}) && g != map[] ==> content != {}
  {
    if Named(g) && (forall a :: a in g ==> g[a] != {}) && g != map[] {
      var k := SomeComputer(g);
      assert g[k] != {};
      assert Searching(g, content, added, popped, seen);
      QueueNonEmpty(g, content, added, popped, seen, k);
    }
  }

  /** A network that is not empty has a computer. */
  lemma SomeComputer(g: Network) returns (k: string)
    requires g != map[]
    ensures k in g
  {
    k :| k in g.Keys;
  }

  /** The facts the intended search keeps between two takes. */
  ghost predicate Progress(g: Network, content: set<set<string>>, added: set<set<string>>, popped: set<set<string>>, seen: set<string>)
  {
    Bounded(g, added) && Covered(added, content, popped) && Expanded(g, popped, seen) && Keyed(g, added, seen) &&
    seen <= Universe(g) && (Named(g) ==> Seeded(g, added, g.Keys))
  }

  /** Taking out a set that is not a clique starts its expansion. */
  lemma PopStage(g: Network, before: set<set<string>>, after: set<set<string>>, added: set<set<string>>, popped: set<set<string>>,
                 seen: set<string>, s: set<string>)
    requires Progress(g, before, added, popped, seen) && s in before && after <= before && before - {s} <= after
    requires !Clique(g, s)
    ensures Stage(g, after, added, popped, s, seen)
  {
    PopCovered(added, before, after, popped, s);
  }

  /** A set whose smaller sets are all recorded joins the expanded sets. */
  lemma StageDone(g: Network, content: set<set<string>>, added: set<set<string>>, popped: set<set<string>>, seen: set<string>,
                  s: set<string>)
    requires Stage(g, content, added, popped, s, seen) && Done(g, s, seen)
    ensures Progress(g, content, added, popped + {s}, seen)
  {
    ExpandDone(g, popped, seen, s);
  }

  /** The inner loop of the intended search: queue the sets of s with one
      member less whose key is new. */
  method ExpandSizes(g: Network, q: SizeQueue, s: set<string>, seen0: set<string>, ghost added0: set<set<string>>, ghost popped: set<set<string>>)
    returns (seen: set<string>, ghost added: set<set<string>>)
    requires q.Valid() && Stage(g, Content(q.sets), added0, popped, s, seen0)
    modifies q
    ensures q.Valid() && Stage(g, Content(q.sets), added, popped, s, seen)
    ensures Done(g, s, seen)
    ensures |Universe(g) - seen| + Count(q.sets) == |Universe(g) - seen0| + old(Count(q.sets))
  {
    seen, added := seen0, added0;
    var todo := s;
    while todo != {}
      invariant todo <= s && q.Valid() && Stage(g, Content(q.sets), added, popped, s, seen)
      invariant forall x :: x in s - todo ==> ToKey(s - {x}) in seen
      invariant |Universe(g) - seen| + Count(q.sets) == |Universe(g) - seen0| + old(Count(q.sets))
      decreases |todo|
    {
      var x :| x in todo;
      var o := s - {x};
      var kk := ToKey(o);
      if kk !in seen {
        ExpandAdd(g, Content(q.sets), added, popped, seen, s, x);
        seen := seen + {kk};
        q.Add(o);
        added := added + {o};
      }
      todo := todo - {x};
    }
  }

  /** A recorded connection key is a key the search accepts. */
  lemma SeedKeyedKeyed(g: Network, added: set<set<string>>, seen: set<string>)
    requires SeedKeyed(g, added, seen)
    ensures Keyed(g, added, seen)
  {
    forall key | key in seen ensures LinkKey(g, key) {
      var k, v :| k in g && v in g[k] && key == TwoKey(k, v) && Initial(g, k, v) in added;
    }
  }

  /** `part2` with the intended queue: the key of a clique, a largest one
      when the computers are named, and an answer whenever there is a
      connection. */
  method Part2Fixed(lines: seq<string>) returns (r: Result<string>)
    ensures Computers(lines).Err? ==> r == Err(Computers(lines).msg)
    ensures Computers(lines).Ok? ==>
      var g := Computers(lines).value;
      (r.Ok? ==> exists s :: Clique(g, s) && r.value == ToKey(s) && (Named(g) ==> Largest(g, s))) &&
      (r.Err? ==> r.msg == "sequeue is empty") &&
      (g == map[] ==> r.Err?) &&
      (Named(g) && g != map[] ==> r.Ok?)
  {
    var c := MakeComputers(lines);
    if c.Err? {
      return Err(c.msg);
    }
    var g := c.value;
    ComputersSymmetricAll(lines);
    ComputersNonEmpty(lines);
    var q := new SizeQueue();
    EmptyContent(q.sets);
    var seen;
    ghost var added;
    seen, added := SeedSizes(g, q);
    SeedKeyedKeyed(g, added, seen);
    r := SearchSizes(g, q, seen, added);
  }

  // ----------------------------------------------- part 2 as written

  /** Taking sets out of, and adding sets to, a queue of sets of computers. */
  lemma BoundedAdd(g: Network, content: set<set<string>>, o: set<string>)
    requires Bounded(g, content) && o != {} && o <= g.Keys
    ensures Bounded(g, content + {o})
  {
  }

  lemma BoundedSub(g: Network, content: set<set<string>>, less: set<set<string>>)
    requires Bounded(g, content) && less <= content
    ensures Bounded(g, less)
  {
  }

  /** The first loop of `part2` as written, on `setqueue`. */
  method SeedSets(g: Network, q: SetQueue) returns (seen: set<string>)
    requires Content(q.sets) == {} && Symmetric(g)
    modifies q
    ensures Bounded(g, Content(q.sets)) && seen <= Universe(g)
  {
    seen := {};
    var todo := g.Keys;
    while todo != {}
      invariant todo <= g.Keys && Bounded(g, Content(q.sets)) && seen <= Universe(g)
      decreases |todo|
    {
      var k :| k in todo;
      seen := SeedSetsFrom(g, q, k, seen);
      todo := todo - {k};
    }
  }

  /** The inner loop of the seeding as written: the connections from k. */
  method SeedSetsFrom(g: Network, q: SetQueue, k: string, seen0: set<string>) returns (seen: set<string>)
    requires Symmetric(g) && k in g && Bounded(g, Content(q.sets)) && seen0 <= Universe(g)
    modifies q
    ensures Bounded(g, Content(q.sets)) && seen0 <= seen <= Universe(g)
  {
    seen := seen0;
    var c := g[k];
    var rest := c;
    while rest != {}
      invariant rest <= c && Bounded(g, Content(q.sets)) && seen0 <= seen <= Universe(g)
      decreases |rest|
    {
      var v :| v in rest;
      var kk := TwoKey(k, v);
      if kk !in seen {
        InitialBounded(g, k, v);
        seen := seen + {kk};
        var s := Intersect(c, Adj(g, v));
        s := s + {k} + {v};
        BoundedAdd(g, Content(q.sets), s);
        q.Add(s);
      }
      rest := rest - {v};
    }
  }

  /** The second loop of `part2` as written: what it reports is the key of
      a clique, and it stops, but it may stop with a fatal error while a
      clique is queued, and what it reports need not be a largest clique. */
  method SearchSets(g: Network, q: SetQueue, seen0: set<string>) returns (r: Result<string>)
    requires Bounded(g, Content(q.sets)) && seen0 <= Universe(g)
    modifies q
    ensures r.Ok? ==> exists s :: Clique(g, s) && r.value == ToKey(s)
    ensures r.Err? ==> r.msg == "sequeue is empty" || r.msg == "index out of range"
  {
    var seen := seen0;
    while true
      invariant Bounded(g, Content(q.sets)) && seen <= Universe(g)
      decreases |Universe(g) - seen| + Count(q.sets)
    {
      ghost var before := Content(q.sets);
      var p := q.Pop();
      if p.Err? {
        return Err(p.msg);
      }
      var s := p.value;
      BoundedSub(g, before, Content(q.sets));
      var full := FullyConnected(g, s);
      if full {
        return Ok(ToKey(s));
      }
      assert s <= g.Keys;
      seen := ExpandSets(g, q, s, seen);
    }
  }

  /** The inner loop of the search as written. */
  method ExpandSets(g: Network, q: SetQueue, s: set<string>, seen0: set<string>) returns (seen: set<string>)
    requires Bounded(g, Content(q.sets)) && seen0 <= Universe(g) && s <= g.Keys && !Clique(g, s)
    modifies q
    ensures Bounded(g, Content(q.sets)) && seen <= Universe(g)
    ensures |Universe(g) - seen| + Count(q.sets) == |Universe(g) - seen0| + old(Count(q.sets))
  {
    seen := seen0;
    var todo := s;
    while todo != {}
      invariant Bounded(g, Content(q.sets)) && seen <= Universe(g)
      invariant |Universe(g) - seen| + Count(q.sets) == |Universe(g) - seen0| + old(Count(q.sets))
      decreases |todo|
    {
      var x :| x in todo;
      var o := s - {x};
      var kk := ToKey(o);
      if kk !in seen {
        NotCliqueSmaller(g, s, x);
        InUniverse(g, seen, o);
        BoundedAdd(g, Content(q.sets), o);
        seen := seen + {kk};
        q.Add(o);
      }
      todo := todo - {x};
    }
  }

  /** `part2` as written. */
  method Part2(lines: seq<string>) returns (r: Result<string>)
    ensures Computers(lines).Err? ==> r == Err(Computers(lines).msg)
    ensures Computers(lines).Ok? ==>
      (r.Ok? ==> exists s :: Clique(Computers(lines).value, s) && r.value == ToKey(s)) &&
      (r.Err? ==> r.msg == "sequeue is empty" || r.msg == "index out of range")
  {
    var c := MakeComputers(lines);
    if c.Err? {
      return Err(c.msg);
    }
    var g := c.value;
    ComputersSymmetricAll(lines);
    var q := new SetQueue();
    EmptyContent(q.sets);
    var seen := SeedSets(g, q);
    r := SearchSets(g, q, seen);
  }
}
