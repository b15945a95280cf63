/** 2020 day 7: bag containment rules as a graph with weighted edges in both
    directions, reverse reachability for Part1 and a weighted sum for Part2. */
module Y2020Dec07 {
  import opened Common

  /** One entry of an inner map: the other bag and the count. */
  datatype Edge = Edge(bag: string, count: nat)

  /** A `MutableMap<String, MutableMap<String, Int>>` with its insertion
      order: each inner map is its list of entries, with distinct keys. */
  type Adjacency = map<string, seq<Edge>>

  function Bags(es: seq<Edge>): set<string>
  {
    set i | 0 <= i < |es| :: es[i].bag
  }

  /** The inner map of `b`, or the empty map (`getOrDefault`). */
  function Entries(adj: Adjacency, b: string): (es: seq<Edge>)
    ensures b !in adj ==> es == []
  {
    if b in adj then adj[b] else []
  }

  ghost predicate HasEdge(adj: Adjacency, a: string, b: string, n: nat)
  {
    a in adj && Edge(b, n) in adj[a]
  }

  ghost predicate DistinctKeys(adj: Adjacency)
  {
    forall a :: a in adj ==> forall i, j :: 0 <= i < j < |adj[a]| ==> adj[a][i].bag != adj[a][j].bag
  }

  class Graph {
    /** `contains[from]` maps each contained bag to its count. */
    var contains: Adjacency
    /** `contained[to]` maps each containing bag to the same count. */
    var contained: Adjacency

    /** The two maps hold the same edges, in opposite directions. */
    ghost predicate Valid()
      reads this
    {
      DistinctKeys(contains) && DistinctKeys(contained) &&
      (forall a, b, n :: HasEdge(contains, a, b, n) <==> HasEdge(contained, b, a, n))
    }

    constructor()
      ensures Valid() && contains == map[] && contained == map[]
    {
      contains := map[];
      contained := map[];
    }

    function GetChildren(container: string): (es: seq<Edge>)
      reads this
      ensures container !in contains ==> es == []
    {
      Entries(contains, container)
    }

    function GetParents(containee: string): (es: seq<Edge>)
      reads this
      ensures containee !in contained ==> es == []
    {
      Entries(contained, containee)
    }

    /** Records from→to in `contains` and to→from in `contained`. A second
        edge between the same two bags throws (ok is false) and changes
        nothing; `contained`'s own duplicate check can then never fire. */
    method AddEdge(from: string, to: string, count: nat) returns (ok: bool)
      requires Valid()
      modifies this
      ensures Valid()
      ensures ok <==> to !in Bags(old(GetChildren(from)))
      ensures ok ==> contains == old(contains)[from := old(GetChildren(from)) + [Edge(to, count)]]
      ensures ok ==> contained == old(contained)[to := old(GetParents(to)) + [Edge(from, count)]]
      ensures !ok ==> contains == old(contains) && contained == old(contained)
    {
      var children := GetChildren(from);
      if to in Bags(children) {
        return false;
      }
      var parents := GetParents(to);
      if from in Bags(parents) {
        var k :| 0 <= k < |parents| && parents[k].bag == from;
        assert HasEdge(contained, to, from, parents[k].count);
        assert false;
      }
      ghost var oldContains, oldContained := contains, contained;
      contains := contains[from := children + [Edge(to, count)]];
      contained := contained[to := parents + [Edge(from, count)]];
      forall a, b, n ensures HasEdge(contains, a, b, n) <==> HasEdge(contained, b, a, n) {
        NewEdge(oldContains, from, to, count, a, b, n);
        NewEdge(oldContained, to, from, count, b, a, n);
      }
      ok := true;
    }
  }

  /** After appending (x, y) under x, an edge is new or was there before. */
  lemma NewEdge(adj: Adjacency, x: string, y: string, c: nat, a: string, b: string, n: nat)
    ensures HasEdge(adj[x := Entries(adj, x) + [Edge(y, c)]], a, b, n) <==>
      HasEdge(adj, a, b, n) || (a == x && b == y && n == c)
  {
    var es := Entries(adj, x) + [Edge(y, c)];
    if a == x && Edge(b, n) in es && Edge(b, n) != Edge(y, c) {
      var i :| 0 <= i < |es| && es[i] == Edge(b, n);
      assert i < |Entries(adj, x)|;
      assert Edge(b, n) in Entries(adj, x);
    }
  }

  /** One parsed rule line: the container and its `count containee` list,
      empty for "no other bags". */
  datatype Rule = Rule(container: string, contents: seq<Edge>)

  /** The bags of `es` are pairwise distinct and none is in `have`. */
  predicate NewBags(have: set<string>, es: seq<Edge>)
  {
    forall j :: 0 <= j < |es| ==> es[j].bag !in have && es[j].bag !in Bags(es[..j])
  }

  /** `contains` after appending `es` under `x`. */
  function AddOut(adj: Adjacency, x: string, es: seq<Edge>): Adjacency
  {
    if es == [] then adj else adj[x := Entries(adj, x) + es]
  }

  /** `contained` after recording `x` as a parent of each bag of `es`, in order. */
  function AddIn(adj: Adjacency, x: string, es: seq<Edge>): Adjacency
  {
    if es == [] then adj
    else
      var a := AddIn(adj, x, es[..|es| - 1]);
      var e := es[|es| - 1];
      a[e.bag := Entries(a, e.bag) + [Edge(x, e.count)]]
  }

  /** One more edge under `x`, in both maps. */
  lemma AddOneMore(cs: Adjacency, cd: Adjacency, x: string, es: seq<Edge>, i: nat)
    requires i < |es|
    ensures AddOut(cs, x, es[..i])[x := Entries(AddOut(cs, x, es[..i]), x) + [es[i]]] ==
      AddOut(cs, x, es[..i + 1])
    ensures AddIn(cd, x, es[..i])[es[i].bag := Entries(AddIn(cd, x, es[..i]), es[i].bag) + [Edge(x, es[i].count)]] ==
      AddIn(cd, x, es[..i + 1])
  {
    assert es[..i + 1][..i] == es[..i];
    assert es[..i] + [es[i]] == es[..i + 1];
    if i > 0 {
      assert Entries(AddOut(cs, x, es[..i]), x) == Entries(cs, x) + es[..i];
      assert (Entries(cs, x) + es[..i]) + [es[i]] == Entries(cs, x) + es[..i + 1];
    } else {
      assert es[..i + 1] == [es[i]];
    }
  }

  /** `parseEdge`: adds the rule's edges in order. The first `n` edges are
      added; a duplicate edge at position `n` throws (ok is false), leaving
      the edges added before it in place. */
  method AddRule(g: Graph, r: Rule) returns (ok: bool, ghost n: nat)
    requires g.Valid()
    modifies g
    ensures g.Valid()
    ensures n <= |r.contents| && (ok <==> n == |r.contents|)
    ensures NewBags(Bags(Entries(old(g.contains), r.container)), r.contents[..n])
    ensures !ok ==> r.contents[n].bag in Bags(Entries(old(g.contains), r.container)) + Bags(r.contents[..n])
    ensures g.contains == AddOut(old(g.contains), r.container, r.contents[..n])
    ensures g.contained == AddIn(old(g.contained), r.container, r.contents[..n])
    ensures ok ==> forall i :: 0 <= i < |r.contents| ==>
      HasEdge(g.contains, r.container, r.contents[i].bag, r.contents[i].count)
  {
    ghost var cs, cd := g.contains, g.contained;
    ghost var have := Bags(Entries(cs, r.container));
    var i := 0;
    while i < |r.contents|
      invariant 0 <= i <= |r.contents|
      invariant g.Valid()
      invariant NewBags(have, r.contents[..i])
      invariant g.contains == AddOut(cs, r.container, r.contents[..i])
      invariant g.contained == AddIn(cd, r.container, r.contents[..i])
    {
      var e := r.contents[i];
      assert Bags(Entries(g.contains, r.container)) == have + Bags(r.contents[..i]) by {
        BagsAppend(Entries(cs, r.container), r.contents[..i]);
      }
      var added := g.AddEdge(r.container, e.bag, e.count);
      if !added {
        return false, i;
      }
      AddOneMore(cs, cd, r.container, r.contents, i);
      NewBagsStep(have, r.contents, i);
      i := i + 1;
    }
    assert r.contents[..i] == r.contents;
    AddOutHas(cs, r.container, r.contents);
    return true, i;
  }

  lemma NewBagsStep(have: set<string>, es: seq<Edge>, i: nat)
    requires i < |es| && NewBags(have, es[..i]) && es[i].bag !in have + Bags(es[..i])
    ensures NewBags(have, es[..i + 1])
  {
    var es' := es[..i + 1];
    forall j | 0 <= j < i + 1
      ensures es'[j].bag !in have && es'[j].bag !in Bags(es'[..j])
    {
      assert es'[j] == es[j] && es'[..j] == es[..j];
      if j < i {
        assert es[..i][j] == es[j] && es[..i][..j] == es[..j];
      }
    }
  }

  /** Every appended edge is an edge of the new `contains`. */
  lemma AddOutHas(cs: Adjacency, x: string, es: seq<Edge>)
    ensures forall j :: 0 <= j < |es| ==> HasEdge(AddOut(cs, x, es), x, es[j].bag, es[j].count)
  {
    forall j | 0 <= j < |es| ensures HasEdge(AddOut(cs, x, es), x, es[j].bag, es[j].count) {
      assert (Entries(cs, x) + es)[|Entries(cs, x)| + j] == es[j];
    }
  }

  lemma BagsAppend(a: seq<Edge>, b: seq<Edge>)
    ensures Bags(a + b) == Bags(a) + Bags(b)
  {
    forall x | x in Bags(a + b) ensures x in Bags(a) + Bags(b) {
      var i :| 0 <= i < |a + b| && (a + b)[i].bag == x;
      if i >= |a| { assert b[i - |a|].bag == x; }
    }
    forall x | x in Bags(a) ensures x in Bags(a + b) {
      var i :| 0 <= i < |a| && a[i].bag == x;
      assert (a + b)[i].bag == x;
    }
    forall x | x in Bags(b) ensures x in Bags(a + b) {
      var i :| 0 <= i < |b| && b[i].bag == x;
      assert (a + b)[|a| + i].bag == x;
    }
  }

  /** `contains` after every rule, had none of them failed. */
  function ContainsOf(rules: seq<Rule>): Adjacency
  {
    if rules == [] then map[]
    else
      var r := rules[|rules| - 1];
      AddOut(ContainsOf(rules[..|rules| - 1]), r.container, r.contents)
  }

  /** `contained` after every rule, had none of them failed. */
  function ContainedOf(rules: seq<Rule>): Adjacency
  {
    if rules == [] then map[]
    else
      var r := rules[|rules| - 1];
      AddIn(ContainedOf(rules[..|rules| - 1]), r.container, r.contents)
  }

  /** No rule repeats a bag under its container, counting earlier rules. */
  predicate Clean(rules: seq<Rule>)
  {
    rules == [] ||
    (Clean(rules[..|rules| - 1]) &&
     var r := rules[|rules| - 1];
     NewBags(Bags(Entries(ContainsOf(rules[..|rules| - 1]), r.container)), r.contents))
  }

  lemma {:induction false} CleanPrefix(rules: seq<Rule>, k: nat)
    requires k <= |rules| && Clean(rules)
    ensures Clean(rules[..k])
  {
    if k < |rules| {
      CleanPrefix(rules[..|rules| - 1], k);
      assert rules[..|rules| - 1][..k] == rules[..k];
    } else {
      assert rules[..k] == rules;
    }
  }

  /** Every (container, edge) pair the rules list, rule by rule. */
  function Listed(rules: seq<Rule>): seq<(string, Edge)>
  {
    if rules == [] then []
    else
      var r := rules[|rules| - 1];
      Listed(rules[..|rules| - 1]) + Under(r.container, r.contents)
  }

  /** The pairs of one rule. */
  function Under(x: string, es: seq<Edge>): (t: seq<(string, Edge)>)
    ensures |t| == |es| && forall i :: 0 <= i < |es| ==> t[i] == (x, es[i])
  {
    seq(|es|, j requires 0 <= j < |es| => (x, es[j]))
  }

  /** No two listed pairs share both the container and the contained bag. */
  ghost predicate KeysDistinct(t: seq<(string, Edge)>)
  {
    forall p, q :: 0 <= p < q < |t| ==> t[p].0 != t[q].0 || t[p].1.bag != t[q].1.bag
  }

  /** An edge is in `AddOut` iff it was there or was appended. */
  lemma AddOutEdge(cs: Adjacency, x: string, es: seq<Edge>, a: string, b: string, n: nat)
    ensures HasEdge(AddOut(cs, x, es), a, b, n) <==> HasEdge(cs, a, b, n) || (a == x && Edge(b, n) in es)
  {
    if es != [] && a == x {
      assert forall e :: e in Entries(cs, x) + es <==> e in Entries(cs, x) || e in es;
    }
  }

  /** The edges of `ContainsOf` are exactly the listed pairs. */
  lemma {:induction false} ContainsOfEdges(rules: seq<Rule>, a: string, b: string, n: nat)
    ensures HasEdge(ContainsOf(rules), a, b, n) <==> (a, Edge(b, n)) in Listed(rules)
  {
    if rules != [] {
      var init, r := rules[..|rules| - 1], rules[|rules| - 1];
      ContainsOfEdges(init, a, b, n);
      AddOutEdge(ContainsOf(init), r.container, r.contents, a, b, n);
      var tail := Under(r.container, r.contents);
      assert (a, Edge(b, n)) in tail <==> a == r.container && Edge(b, n) in r.contents by {
        if a == r.container && Edge(b, n) in r.contents {
          var j :| 0 <= j < |r.contents| && r.contents[j] == Edge(b, n);
          assert tail[j] == (a, Edge(b, n));
        }
      }
    }
  }

  /** A bag is listed under `x` in `ContainsOf` iff some listed pair has that key. */
  lemma ContainsOfBags(rules: seq<Rule>, x: string, b: string)
    ensures b in Bags(Entries(ContainsOf(rules), x)) <==>
      exists p :: 0 <= p < |Listed(rules)| && Listed(rules)[p].0 == x && Listed(rules)[p].1.bag == b
  {
    var t := Listed(rules);
    var es := Entries(ContainsOf(rules), x);
    if b in Bags(es) {
      var i :| 0 <= i < |es| && es[i].bag == b;
      ContainsOfEdges(rules, x, b, es[i].count);
      var p :| 0 <= p < |t| && t[p] == (x, Edge(b, es[i].count));
    }
    if exists p :: 0 <= p < |t| && t[p].0 == x && t[p].1.bag == b {
      var p :| 0 <= p < |t| && t[p].0 == x && t[p].1.bag == b;
      ContainsOfEdges(rules, x, b, t[p].1.count);
      var i :| 0 <= i < |es| && es[i] == Edge(b, t[p].1.count);
    }
  }

  /** `NewBags` on a rule's contents: pairwise distinct bags, none already listed. */
  lemma NewBagsMeaning(have: set<string>, es: seq<Edge>)
    ensures NewBags(have, es) <==>
      (forall j :: 0 <= j < |es| ==> es[j].bag !in have) &&
      (forall i, j :: 0 <= i < j < |es| ==> es[i].bag != es[j].bag)
  {
    if NewBags(have, es) {
      forall i, j | 0 <= i < j < |es| ensures es[i].bag != es[j].bag {
        assert es[..j][i] == es[i];
      }
    }
    if (forall i, j :: 0 <= i < j < |es| ==> es[i].bag != es[j].bag) {
      forall j | 0 <= j < |es| ensures es[j].bag !in Bags(es[..j]) {
        forall i | 0 <= i < j ensures es[..j][i].bag != es[j].bag {
          assert es[..j][i] == es[i];
        }
      }
    }
  }

  /** The rules build without a duplicate edge iff no (container, bag) key is
      listed twice: `BuildGraph` fails exactly on a repeated pair. */
  lemma {:induction false} CleanIffDistinct(rules: seq<Rule>)
    ensures Clean(rules) <==> KeysDistinct(Listed(rules))
  {
    if rules != [] {
      var init, r := rules[..|rules| - 1], rules[|rules| - 1];
      CleanIffDistinct(init);
      var t := Listed(init);
      var tail := Under(r.container, r.contents);
      var have := Bags(Entries(ContainsOf(init), r.container));
      assert NewBags(have, r.contents) <==>
        KeysDistinct(tail) && forall p, q :: 0 <= p < |t| && 0 <= q < |tail| ==> t[p].0 != tail[q].0 || t[p].1.bag != tail[q].1.bag
      by {
        NewBagsMeaning(have, r.contents);
        UnderDistinct(r.container, r.contents);
        UnderApart(init, r.container, r.contents);
      }
      DistinctAppend(t, tail);
    }
  }

  lemma UnderDistinct(x: string, es: seq<Edge>)
    ensures KeysDistinct(Under(x, es)) <==> forall i, j :: 0 <= i < j < |es| ==> es[i].bag != es[j].bag
  {
  }

  /** A rule's pairs avoid the earlier keys iff its bags are new under its container. */
  lemma UnderApart(init: seq<Rule>, x: string, es: seq<Edge>)
    ensures (forall p, q :: 0 <= p < |Listed(init)| && 0 <= q < |Under(x, es)| ==>
      Listed(init)[p].0 != Under(x, es)[q].0 || Listed(init)[p].1.bag != Under(x, es)[q].1.bag) <==>
      forall j :: 0 <= j < |es| ==> es[j].bag !in Bags(Entries(ContainsOf(init), x))
  {
    var t, u := Listed(init), Under(x, es);
    var have := Bags(Entries(ContainsOf(init), x));
    if forall j :: 0 <= j < |es| ==> es[j].bag !in have {
      forall p, q | 0 <= p < |t| && 0 <= q < |u| ensures t[p].0 != u[q].0 || t[p].1.bag != u[q].1.bag {
        ContainsOfBags(init, x, es[q].bag);
        assert es[q].bag !in Bags(Entries(ContainsOf(init), x));
        assert !exists k :: 0 <= k < |t| && t[k].0 == x && t[k].1.bag == es[q].bag;
        assert u[q] == (x, es[q]);
      }
    } else {
      var j :| 0 <= j < |es| && es[j].bag in have;
      ContainsOfBags(init, x, es[j].bag);
      var p :| 0 <= p < |t| && t[p].0 == x && t[p].1.bag == es[j].bag;
      assert u[j] == (x, es[j]);
    }
  }

  lemma DistinctAppend(t: seq<(string, Edge)>, u: seq<(string, Edge)>)
    ensures KeysDistinct(t + u) <==> (KeysDistinct(t) && KeysDistinct(u) &&
      forall p, q :: 0 <= p < |t| && 0 <= q < |u| ==> t[p].0 != u[q].0 || t[p].1.bag != u[q].1.bag)
  {
    var w := t + u;
    if KeysDistinct(t) && KeysDistinct(u) &&
      forall p, q :: 0 <= p < |t| && 0 <= q < |u| ==> t[p].0 != u[q].0 || t[p].1.bag != u[q].1.bag
    {
      forall p, q | 0 <= p < q < |w| ensures w[p].0 != w[q].0 || w[p].1.bag != w[q].1.bag {
        if q < |t| {
          assert w[p] == t[p] && w[q] == t[q];
        } else if p >= |t| {
          assert w[p] == u[p - |t|] && w[q] == u[q - |t|];
        } else {
          assert w[p] == t[p] && w[q] == u[q - |t|];
        }
      }
    }
    if KeysDistinct(w) {
      forall p, q | 0 <= p < q < |t| ensures t[p].0 != t[q].0 || t[p].1.bag != t[q].1.bag {
        assert w[p] == t[p] && w[q] == t[q];
      }
      forall p, q | 0 <= p < q < |u| ensures u[p].0 != u[q].0 || u[p].1.bag != u[q].1.bag {
        assert w[|t| + p] == u[p] && w[|t| + q] == u[q];
      }
      forall p, q | 0 <= p < |t| && 0 <= q < |u| ensures t[p].0 != u[q].0 || t[p].1.bag != u[q].1.bag {
        assert w[p] == t[p] && w[|t| + q] == u[q];
      }
    }
  }

  /** What AddRule reports about rule i, in terms of the rules so far. */
  lemma RuleAdded(rules: seq<Rule>, i: nat, ok: bool, n: nat)
    requires i < |rules| && Clean(rules[..i])
    requires n <= |rules[i].contents| && (ok <==> n == |rules[i].contents|)
    requires NewBags(Bags(Entries(ContainsOf(rules[..i]), rules[i].container)), rules[i].contents[..n])
    requires !ok ==>
      rules[i].contents[n].bag in Bags(Entries(ContainsOf(rules[..i]), rules[i].container)) + Bags(rules[i].contents[..n])
    ensures ok ==> Clean(rules[..i + 1])
    ensures ok ==> ContainsOf(rules[..i + 1]) == AddOut(ContainsOf(rules[..i]), rules[i].container, rules[i].contents[..n])
    ensures ok ==> ContainedOf(rules[..i + 1]) == AddIn(ContainedOf(rules[..i]), rules[i].container, rules[i].contents[..n])
    ensures !ok ==> !Clean(rules)
  {
    assert rules[..i + 1][..i] == rules[..i];
    var have := Bags(Entries(ContainsOf(rules[..i]), rules[i].container));
    var es := rules[i].contents;
    if ok {
      assert es[..n] == es;
    } else {
      assert !Clean(rules[..i + 1]) by {
        assert es[n].bag in have + Bags(es[..n]);
      }
      if Clean(rules) {
        CleanPrefix(rules, i + 1);
      }
    }
  }

  /** Builds the graph from every rule; the first duplicate edge stops it.
      On success the two maps are the rules' edges. */
  method BuildGraph(rules: seq<Rule>) returns (g: Graph, ok: bool)
    ensures fresh(g) && g.Valid()
    ensures ok <==> Clean(rules)
    ensures ok ==> g.contains == ContainsOf(rules) && g.contained == ContainedOf(rules)
  {
    g := new Graph();
    var i := 0;
    while i < |rules|
      invariant 0 <= i <= |rules| && g.Valid()
      invariant Clean(rules[..i])
      invariant g.contains == ContainsOf(rules[..i]) && g.contained == ContainedOf(rules[..i])
    {
      ghost var n;
      ok, n := AddRule(g, rules[i]);
      RuleAdded(rules, i, ok, n);
      if !ok {
        return;
      }
      i := i + 1;
    }
    assert rules[..i] == rules;
    ok := true;
  }

  // ---------------------------------------------------------------------
  // Part1: the bags that can contain shiny gold, found by a depth-first
  // walk along parent edges.

  function Parents(adj: Adjacency, b: string): set<string>
  {
    Bags(Entries(adj, b))
  }

  /** Every bag that appears in the adjacency. */
  ghost function Nodes(adj: Adjacency): set<string>
  {
    adj.Keys + set a, i | a in adj && 0 <= i < |adj[a]| :: adj[a][i].bag
  }

  /** p walks from p[0] along parent edges. */
  ghost predicate Chain(adj: Adjacency, p: seq<string>)
  {
    p != [] && forall i :: 0 <= i < |p| - 1 ==> p[i + 1] in Parents(adj, p[i])
  }

  ghost predicate Reaches(adj: Adjacency, a: string, b: string)
  {
    exists p :: Chain(adj, p) && p[0] == a && p[|p| - 1] == b
  }

  /** The parents of `b` in the order `keys` lists them, minus `seen`. */
  function Unseen(es: seq<Edge>, seen: set<string>): (r: seq<string>)
    ensures forall i :: 0 <= i < |r| ==> r[i] in Bags(es) && r[i] !in seen
    ensures forall b :: b in Bags(es) && b !in seen ==> b in r
  {
    if es == [] then []
    else
      var rest := Unseen(es[1..], seen);
      assert Bags(es) == {es[0].bag} + Bags(es[1..]) by {
        assert forall i :: 1 <= i < |es| ==> es[i] == es[1..][i - 1];
      }
      if es[0].bag in seen then rest else [es[0].bag] + rest
  }

  lemma PrependChain(adj: Adjacency, a: string, b: string, c: string)
    requires b in Parents(adj, a) && Reaches(adj, b, c)
    ensures Reaches(adj, a, c)
  {
    var p :| Chain(adj, p) && p[0] == b && p[|p| - 1] == c;
    var q := [a] + p;
    assert forall i :: 1 <= i < |q| ==> q[i] == p[i - 1];
    assert Chain(adj, q);
  }

  lemma SmallerUnseen(u: set<string>, seen1: set<string>, s: set<string>, p: string)
    requires p in u && p !in seen1 && seen1 <= s
    ensures |u - (s + {p})| < |u - seen1|
  {
    assert u - (s + {p}) <= (u - seen1) - {p};
    SubsetCard(u - (s + {p}), (u - seen1) - {p});
  }

  lemma SubsetCard(a: set<string>, b: set<string>)
    requires a <= b
    ensures |a| <= |b|
  {
    assert b == a + (b - a);
  }

  lemma ParentIsNode(adj: Adjacency, b: string, p: string)
    requires p in Parents(adj, b)
    ensures p in Nodes(adj)
  {
    var i :| 0 <= i < |adj[b]| && adj[b][i].bag == p;
  }

  /** `recurse`: adds `containee`, then visits each parent that was unseen
      when the list was taken; a parent seen meanwhile is visited again.
      The bags it adds are reachable from `containee`, each has all its
      parents in the result, and so has `containee`. */
  method Visit(adj: Adjacency, containee: string, seen: set<string>, ghost bound: nat)
    returns (out: set<string>)
    requires |Nodes(adj) - (seen + {containee})| < bound
    decreases bound
    ensures seen + {containee} <= out
    ensures forall x :: x in out && x !in seen ==> Reaches(adj, containee, x)
    ensures forall x :: x in out && x !in seen ==> Parents(adj, x) <= out
    ensures Parents(adj, containee) <= out
  {
    var seen1 := seen + {containee};
    out := seen1;
    ReachesSelf(adj, containee);
    var todo := Unseen(Entries(adj, containee), seen1);
    var i := 0;
    while i < |todo|
      invariant 0 <= i <= |todo|
      invariant seen1 <= out
      invariant forall j :: 0 <= j < i ==> todo[j] in out
      invariant ReachedFrom(adj, containee, seen, out)
      invariant ParentsHeld(adj, seen1, out)
    {
      var p := todo[i];
      TodoEntry(adj, containee, seen1, todo, i);
      SmallerUnseen(Nodes(adj), seen1, out, p);
      var before := out;
      out := Visit(adj, p, out, |Nodes(adj) - seen1|);
      VisitStep(adj, containee, seen, p, before, out);
      TodoStep(todo, i, before, out);
      i := i + 1;
    }
    VisitDone(adj, containee, seen, todo, out);
  }

  /** What Visit's loop leaves behind is what Visit promises. */
  lemma VisitDone(adj: Adjacency, containee: string, seen: set<string>, todo: seq<string>, out: set<string>)
    requires todo == Unseen(Entries(adj, containee), seen + {containee})
    requires seen + {containee} <= out
    requires forall j :: 0 <= j < |todo| ==> todo[j] in out
    requires ReachedFrom(adj, containee, seen, out)
    requires ParentsHeld(adj, seen + {containee}, out)
    ensures forall x :: x in out && x !in seen ==> Reaches(adj, containee, x)
    ensures forall x :: x in out && x !in seen ==> Parents(adj, x) <= out
    ensures Parents(adj, containee) <= out
  {
    UnseenCovered(Entries(adj, containee), seen + {containee}, out);
  }

  /** The i-th bag Visit takes up is an unseen parent, and a node. */
  lemma TodoEntry(adj: Adjacency, containee: string, seen1: set<string>, todo: seq<string>, i: nat)
    requires todo == Unseen(Entries(adj, containee), seen1) && i < |todo|
    ensures todo[i] in Parents(adj, containee) && todo[i] !in seen1 && todo[i] in Nodes(adj)
  {
    ParentIsNode(adj, containee, todo[i]);
  }

  lemma ReachesSelf(adj: Adjacency, a: string)
    ensures Reaches(adj, a, a)
  {
    assert Chain(adj, [a]);
  }

  lemma UnseenCovered(es: seq<Edge>, seen: set<string>, out: set<string>)
    requires seen <= out
    requires forall j :: 0 <= j < |Unseen(es, seen)| ==> Unseen(es, seen)[j] in out
    ensures Bags(es) <= out
  {
    forall b | b in Bags(es) ensures b in out {
      if b !in seen {
        assert b in Unseen(es, seen);
      }
    }
  }

  /** Every bag of `out` outside `seen` is reachable from `a`. */
  ghost predicate ReachedFrom(adj: Adjacency, a: string, seen: set<string>, out: set<string>)
  {
    forall x :: x in out && x !in seen ==> Reaches(adj, a, x)
  }

  /** Every bag of `out` outside `seen` has all its parents in `out`. */
  predicate ParentsHeld(adj: Adjacency, seen: set<string>, out: set<string>)
  {
    forall x :: x in out && x !in seen ==> Parents(adj, x) <= out
  }

  /** The bags Visit has taken up stay in its growing result. */
  lemma TodoStep(todo: seq<string>, i: nat, before: set<string>, out: set<string>)
    requires i < |todo| && before + {todo[i]} <= out
    requires forall j :: 0 <= j < i ==> todo[j] in before
    ensures forall j :: 0 <= j < i + 1 ==> todo[j] in out
  {
    forall j | 0 <= j < i + 1 ensures todo[j] in out {
      if j < i {
        assert todo[j] in before;
      }
    }
  }

  /** One parent's visit keeps Visit's loop invariants. */
  lemma VisitStep(adj: Adjacency, containee: string, seen: set<string>, p: string,
                  before: set<string>, out: set<string>)
    requires p in Parents(adj, containee)
    requires seen + {containee} <= before && before + {p} <= out
    requires ReachedFrom(adj, containee, seen, before)
    requires ParentsHeld(adj, seen + {containee}, before)
    requires ReachedFrom(adj, p, before, out)
    requires ParentsHeld(adj, before, out)
    ensures ReachedFrom(adj, containee, seen, out)
    ensures ParentsHeld(adj, seen + {containee}, out)
  {
    forall x | x in out && x !in seen
      ensures Reaches(adj, containee, x)
    {
      if x !in before {
        PrependChain(adj, containee, p, x);
      }
    }
  }

  /** A set holding `a` and closed under parents holds every bag `a` reaches. */
  lemma ClosedHoldsReachable(adj: Adjacency, a: string, s: set<string>, p: seq<string>)
    requires a in s && forall x :: x in s ==> Parents(adj, x) <= s
    requires Chain(adj, p) && p[0] == a
    ensures p[|p| - 1] in s
    decreases |p|
  {
    if |p| > 1 {
      var q := p[..|p| - 1];
      assert Chain(adj, q);
      ClosedHoldsReachable(adj, a, s, q);
    }
  }

  /** Part1: the number of bags other than shiny gold from which shiny gold
      is reachable along parent edges. */
  method Part1(g: Graph) returns (n: nat)
    requires g.Valid()
    ensures n == |ReachingSet(g.contained, "shiny gold") - {"shiny gold"}|
  {
    var adj := g.contained;
    var seen := Visit(adj, "shiny gold", {}, |Nodes(adj) - {"shiny gold"}| + 1);
    forall x ensures x in seen <==> x in ReachingSet(adj, "shiny gold") {
      if x in seen {
        if x != "shiny gold" {
          ReachesIsNode(adj, "shiny gold", x);
        }
      }
      if x in ReachingSet(adj, "shiny gold") {
        var p :| Chain(adj, p) && p[0] == "shiny gold" && p[|p| - 1] == x;
        ClosedHoldsReachable(adj, "shiny gold", seen, p);
      }
    }
    assert seen == ReachingSet(adj, "shiny gold");
    n := |seen - {"shiny gold"}|;
  }

  /** The bags reachable from `a` along parents, `a` included. */
  ghost function ReachingSet(adj: Adjacency, a: string): set<string>
  {
    set x | x in Nodes(adj) + {a} && Reaches(adj, a, x)
  }

  lemma ReachesIsNode(adj: Adjacency, a: string, x: string)
    requires Reaches(adj, a, x) && x != a
    ensures x in Nodes(adj)
  {
    var p :| Chain(adj, p) && p[0] == a && p[|p| - 1] == x;
    assert |p| > 1;
    ParentIsNode(adj, p[|p| - 2], x);
  }

  // ---------------------------------------------------------------------
  // Part2: `recursiveSum(b)` = sum over b's children (c, n) of
  // n + n * recursiveSum(c). The source recurses without a bound and
  // overflows the stack on a cycle; here `fuel` bounds the depth and
  // running out of it is None.

  function RecursiveSum(adj: Adjacency, b: string, fuel: nat): Option<int>
    decreases fuel, 0
  {
    if fuel == 0 then None else ChildSum(adj, Entries(adj, b), fuel - 1)
  }

  function ChildSum(adj: Adjacency, es: seq<Edge>, fuel: nat): Option<int>
    decreases fuel, |es| + 1
  {
    if es == [] then Some(0)
    else
      match ChildSum(adj, es[..|es| - 1], fuel)
      case None => None
      case Some(s) =>
        var e := es[|es| - 1];
        match RecursiveSum(adj, e.bag, fuel)
        case None => None
        case Some(v) => Some(s + e.count + e.count * v)
  }

  /** More fuel never changes a computed total. */
  lemma {:induction false} FuelIrrelevant(adj: Adjacency, b: string, fuel: nat)
    requires RecursiveSum(adj, b, fuel).Some?
    ensures RecursiveSum(adj, b, fuel + 1) == RecursiveSum(adj, b, fuel)
    decreases fuel, 0
  {
    ChildFuelIrrelevant(adj, Entries(adj, b), fuel - 1);
  }

  lemma {:induction false} ChildFuelIrrelevant(adj: Adjacency, es: seq<Edge>, fuel: nat)
    requires ChildSum(adj, es, fuel).Some?
    ensures ChildSum(adj, es, fuel + 1) == ChildSum(adj, es, fuel)
    decreases fuel, |es| + 1
  {
    if es != [] {
      ChildFuelIrrelevant(adj, es[..|es| - 1], fuel);
      FuelIrrelevant(adj, es[|es| - 1].bag, fuel);
    }
  }

  /** The total counts at least every directly contained bag, and is never
      negative. */
  lemma {:induction false} ChildSumLowerBound(adj: Adjacency, es: seq<Edge>, fuel: nat)
    requires ChildSum(adj, es, fuel).Some?
    ensures ChildSum(adj, es, fuel).value >= DirectCount(es)
    decreases fuel, |es| + 1
  {
    if es != [] {
      ChildSumLowerBound(adj, es[..|es| - 1], fuel);
      var e := es[|es| - 1];
      RecursiveSumLowerBound(adj, e.bag, fuel);
    }
  }

  lemma {:induction false} RecursiveSumLowerBound(adj: Adjacency, b: string, fuel: nat)
    requires RecursiveSum(adj, b, fuel).Some?
    ensures RecursiveSum(adj, b, fuel).value >= DirectCount(Entries(adj, b)) >= 0
    decreases fuel, 0
  {
    ChildSumLowerBound(adj, Entries(adj, b), fuel - 1);
  }

  /** The number of bags directly inside. */
  function DirectCount(es: seq<Edge>): nat
  {
    if es == [] then 0 else DirectCount(es[..|es| - 1]) + es[|es| - 1].count
  }

  /** A bag with no rule, or "no other bags", contains nothing. */
  lemma LeafIsZero(adj: Adjacency, b: string, fuel: nat)
    requires fuel >= 1 && Entries(adj, b) == []
    ensures RecursiveSum(adj, b, fuel) == Some(0)
  {
  }

  /** The puzzle's worked example: shiny gold holds 32 bags. */
  lemma ExampleTotal()
    ensures RecursiveSum(map[
      "shiny gold" := [Edge("dark olive", 1), Edge("vibrant plum", 2)],
      "dark olive" := [Edge("faded blue", 3), Edge("dotted black", 4)],
      "vibrant plum" := [Edge("faded blue", 5), Edge("dotted black", 6)]],
      "shiny gold", 3) == Some(32)
  {
    var adj := map[
      "shiny gold" := [Edge("dark olive", 1), Edge("vibrant plum", 2)],
      "dark olive" := [Edge("faded blue", 3), Edge("dotted black", 4)],
      "vibrant plum" := [Edge("faded blue", 5), Edge("dotted black", 6)]];
    assert RecursiveSum(adj, "faded blue", 1) == Some(0);
    assert RecursiveSum(adj, "dotted black", 1) == Some(0);
    var olive := [Edge("faded blue", 3), Edge("dotted black", 4)];
    assert ChildSum(adj, olive[..1], 1) == Some(3);
    assert ChildSum(adj, olive, 1) == Some(7);
    assert RecursiveSum(adj, "dark olive", 2) == Some(7);
    var plum := [Edge("faded blue", 5), Edge("dotted black", 6)];
    assert ChildSum(adj, plum[..1], 1) == Some(5);
    assert ChildSum(adj, plum, 1) == Some(11);
    assert RecursiveSum(adj, "vibrant plum", 2) == Some(11);
    var gold := [Edge("dark olive", 1), Edge("vibrant plum", 2)];
    assert ChildSum(adj, gold[..1], 2) == Some(8);
    assert ChildSum(adj, gold, 2) == Some(32);
  }

  /** p walks from p[0] along child edges. */
  ghost predicate Descent(adj: Adjacency, p: seq<string>)
  {
    p != [] && forall i :: 0 <= i < |p| - 1 ==> p[i + 1] in Bags(Entries(adj, p[i]))
  }

  /** No walk along child edges from `b` meets a bag twice: no cycle is
      reachable from `b`. */
  ghost predicate NoCycleFrom(adj: Adjacency, b: string)
  {
    forall p :: Descent(adj, p) && p[0] == b ==> forall i, j :: 0 <= i < j < |p| ==> p[i] != p[j]
  }

  /** The children's totals are all defined when their sum is. */
  lemma {:induction false} ChildSumParts(adj: Adjacency, es: seq<Edge>, fuel: nat, k: nat)
    requires ChildSum(adj, es, fuel).Some? && k < |es|
    ensures RecursiveSum(adj, es[k].bag, fuel).Some?
    decreases |es|
  {
    if k < |es| - 1 {
      ChildSumParts(adj, es[..|es| - 1], fuel, k);
    }
  }

  /** The sum is defined when every child's total is. */
  lemma {:induction false} ChildSumDefined(adj: Adjacency, es: seq<Edge>, fuel: nat)
    requires forall k :: 0 <= k < |es| ==> RecursiveSum(adj, es[k].bag, fuel).Some?
    ensures ChildSum(adj, es, fuel).Some?
  {
    if es != [] {
      ChildSumDefined(adj, es[..|es| - 1], fuel);
    }
  }

  /** A child's walk, prefixed by its parent, is the parent's walk. */
  lemma PrependDescent(adj: Adjacency, b: string, q: seq<string>)
    requires Descent(adj, q) && q[0] in Bags(Entries(adj, b))
    ensures Descent(adj, [b] + q) && ([b] + q)[1..] == q
  {
    var p := [b] + q;
    assert forall i :: 1 <= i < |p| ==> p[i] == q[i - 1];
  }

  /** A defined total bounds every walk from the bag by the fuel. */
  lemma {:induction false} DefinedBoundsDescents(adj: Adjacency, b: string, fuel: nat, p: seq<string>)
    requires RecursiveSum(adj, b, fuel).Some?
    requires Descent(adj, p) && p[0] == b
    ensures |p| <= fuel
    decreases fuel
  {
    if |p| > 1 {
      var es := Entries(adj, b);
      assert p[1] in Bags(es);
      var k :| 0 <= k < |es| && es[k].bag == p[1];
      ChildSumParts(adj, es, fuel - 1, k);
      var q := p[1..];
      assert forall i :: 0 <= i < |q| ==> q[i] == p[i + 1];
      DefinedBoundsDescents(adj, p[1], fuel - 1, q);
    }
  }

  /** Every walk from the bag is at most `fuel` long. */
  ghost predicate ShortWalks(adj: Adjacency, b: string, fuel: nat)
  {
    forall p :: Descent(adj, p) && p[0] == b ==> |p| <= fuel
  }

  /** A child's walks are one shorter than its parent's bound. */
  lemma ShortChild(adj: Adjacency, b: string, fuel: nat, c: string)
    requires ShortWalks(adj, b, fuel) && c in Bags(Entries(adj, b))
    ensures fuel >= 1 && ShortWalks(adj, c, fuel - 1)
  {
    assert Descent(adj, [b]);
    forall q | Descent(adj, q) && q[0] == c ensures |q| <= fuel - 1 {
      PrependDescent(adj, b, q);
    }
  }

  /** Walks from the bag no longer than the fuel make the total defined. */
  lemma {:induction false} ShortDescentsDefined(adj: Adjacency, b: string, fuel: nat)
    requires ShortWalks(adj, b, fuel)
    ensures RecursiveSum(adj, b, fuel).Some?
    decreases fuel
  {
    assert Descent(adj, [b]);
    var es := Entries(adj, b);
    forall k | 0 <= k < |es| ensures RecursiveSum(adj, es[k].bag, fuel - 1).Some? {
      ShortChild(adj, b, fuel, es[k].bag);
      ShortDescentsDefined(adj, es[k].bag, fuel - 1);
    }
    ChildSumDefined(adj, es, fuel - 1);
  }

  /** A walk that meets a bag twice can be pumped to any length. */
  lemma {:induction false} LongDescent(adj: Adjacency, p: seq<string>, i: nat, j: nat, m: nat)
    requires Descent(adj, p) && i < j < |p| && p[i] == p[j]
    ensures exists q :: Descent(adj, q) && q[0] == p[0] && |q| >= m
    decreases m - |p|
  {
    if |p| < m {
      var q := p[..j] + p[i..];
      assert forall k :: 0 <= k < j ==> q[k] == p[k];
      assert forall k :: j <= k < |q| ==> q[k] == p[k - j + i];
      assert Descent(adj, q);
      LongDescent(adj, q, i, j, m);
    } else {
      assert Descent(adj, p) && p[0] == p[0] && |p| >= m;
    }
  }

  /** The elements of a walk other than the last have children, so they are
      keys of the adjacency. */
  lemma DescentKeys(adj: Adjacency, p: seq<string>)
    requires Descent(adj, p)
    ensures forall i :: 0 <= i < |p| - 1 ==> p[i] in adj.Keys
  {
    forall i | 0 <= i < |p| - 1 ensures p[i] in adj.Keys {
      assert p[i + 1] in Bags(Entries(adj, p[i]));
    }
  }

  /** Distinct elements drawn from a set are no more than the set's size. */
  lemma {:induction false} DistinctWithin(s: seq<string>, keys: set<string>)
    requires forall i :: 0 <= i < |s| ==> s[i] in keys
    requires forall i, j :: 0 <= i < j < |s| ==> s[i] != s[j]
    ensures |s| <= |keys|
  {
    if s != [] {
      var last := s[|s| - 1];
      DistinctWithin(s[..|s| - 1], keys - {last});
    }
  }

  /** `recursiveSum` at depth `|contains.Keys| + 1` is defined iff no cycle
      is reachable from the bag: only a reachable cycle can exhaust the
      bound, and any reachable cycle does, as the source overflows its stack
      on one. */
  lemma DefinedIffNoCycle(adj: Adjacency, b: string)
    ensures RecursiveSum(adj, b, |adj.Keys| + 1).Some? <==> NoCycleFrom(adj, b)
  {
    var fuel := |adj.Keys| + 1;
    if NoCycleFrom(adj, b) {
      forall p | Descent(adj, p) && p[0] == b ensures |p| <= fuel {
        DescentKeys(adj, p);
        DistinctWithin(p[..|p| - 1], adj.Keys);
      }
      ShortDescentsDefined(adj, b, fuel);
    } else {
      var p, i, j :| Descent(adj, p) && p[0] == b && 0 <= i < j < |p| && p[i] == p[j];
      LongDescent(adj, p, i, j, fuel + 1);
      var q :| Descent(adj, q) && q[0] == b && |q| >= fuel + 1;
      if RecursiveSum(adj, b, fuel).Some? {
        DefinedBoundsDescents(adj, b, fuel, q);
      }
    }
  }

  /** Part2 on the graph, with a depth bound of one more than the number of
      bags that have contents. */
  function Part2(g: Graph): (r: Option<int>)
    reads g
    ensures r.Some? <==> NoCycleFrom(g.contains, "shiny gold")
    ensures r.Some? ==> r.value >= DirectCount(g.GetChildren("shiny gold"))
  {
    var r := RecursiveSum(g.contains, "shiny gold", |g.contains.Keys| + 1);
    DefinedIffNoCycle(g.contains, "shiny gold");
    if r.Some? then
      RecursiveSumLowerBound(g.contains, "shiny gold", |g.contains.Keys| + 1);
      r
    else r
  }

  /** `Part1.solve`: build the graph from the rules (a repeated pair throws),
      then count the bags that can hold shiny gold. */
  method Solve1(rules: seq<Rule>) returns (r: Result<nat>)
    ensures r.Ok? <==> KeysDistinct(Listed(rules))
    ensures r.Ok? ==> r.value == |ReachingSet(ContainedOf(rules), "shiny gold") - {"shiny gold"}|
  {
    CleanIffDistinct(rules);
    var g, ok := BuildGraph(rules);
    if !ok {
      return Err("duplicate edge");
    }
    var n := Part1(g);
    return Ok(n);
  }

  /** `Part2.solve`: build the graph, then the total under shiny gold; None
      where the source's recursion would not end. */
  method Solve2(rules: seq<Rule>) returns (r: Result<Option<int>>)
    ensures r.Ok? <==> KeysDistinct(Listed(rules))
    ensures r.Ok? ==> (r.value.Some? <==> NoCycleFrom(ContainsOf(rules), "shiny gold"))
    ensures r.Ok? ==> r.value == RecursiveSum(ContainsOf(rules), "shiny gold", |ContainsOf(rules).Keys| + 1)
  {
    CleanIffDistinct(rules);
    var g, ok := BuildGraph(rules);
    if !ok {
      return Err("duplicate edge");
    }
    var v := Part2(g);
    assert v == RecursiveSum(g.contains, "shiny gold", |g.contains.Keys| + 1);
    return Ok(v);
  }
}
