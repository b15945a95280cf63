// Advent of Code 2020, day 20, part 1: the corner tiles are those sharing
// an edge, in some orientation, with exactly two other tiles.

module Y2020Dec20Corners {
  import opened Common
  import opened Y2020Dec20
  import opened Y2020Dec20Grid

  /** Every paragraph read as a tile, failing at the first that fails. */
  function ParseTiles(ps: seq<string>): (r: Result<seq<Tile>>)
    ensures r.Ok? ==> |r.value| == |ps| && forall k :: 0 <= k < |ps| ==> ParseTile(ps[k]) == Ok(r.value[k])
    ensures r.Err? ==> exists k :: 0 <= k < |ps| && ParseTile(ps[k]) == Err(r.msg)
  {
    if ps == [] then Ok([])
    else
      match ParseTile(ps[0])
      case Err(m) => Err(m)
      case Ok(t) =>
        match ParseTiles(ps[1..])
        case Err(m) => assert ps[1..][0] in ps; Err(m)
        case Ok(ts) => Ok([t] + ts)
  }

  /** `map { it.id to it }.toMap()`: each id to the last tile carrying it. */
  function ById(ts: seq<Tile>): (m: map<int, Tile>)
    ensures forall id :: id in m ==> m[id] in ts && m[id].id == id
    ensures forall k :: 0 <= k < |ts| ==> ts[k].id in m
  {
    if ts == [] then map[]
    else
      var init := ts[..|ts| - 1];
      var last := ts[|ts| - 1];
      var m := ById(init);
      assert forall k :: 0 <= k < |ts| - 1 ==> ts[k] == init[k];
      m[last.id := last]
  }

  /** A later tile with the same id replaces an earlier one. */
  lemma {:induction false} ByIdLast(ts: seq<Tile>, k: nat)
    requires k < |ts|
    ensures ById(ts)[ts[k].id] == ts[k] || exists j :: k < j < |ts| && ts[j].id == ts[k].id
  {
    var init := ts[..|ts| - 1];
    if k < |ts| - 1 && ts[|ts| - 1].id != ts[k].id {
      ByIdLast(init, k);
      assert init[k] == ts[k];
      if ById(init)[init[k].id] != init[k] {
        var j :| k < j < |init| && init[j].id == init[k].id;
        assert ts[j] == init[j];
      }
    }
  }

  predicate AllSquare(ts: set<Tile>) { forall t :: t in ts ==> Square(t.grid) }

  predicate SquareValues(m: map<int, Tile>) { forall id :: id in m ==> Square(m[id].grid) }

  /** `variants() + it`. */
  function WithVariants(t: Tile): (vs: set<Tile>)
    requires Square(t.grid)
    ensures AllSquare(vs) && t in vs
  {
    VariantsKeep(t);
    Variants(t) + {t}
  }

  predicate SquareSets(vars: map<int, set<Tile>>)
  {
    forall id :: id in vars ==> AllSquare(vars[id])
  }

  /** `withVariantsById`. */
  function VariantsById(byId: map<int, Tile>): (vars: map<int, set<Tile>>)
    requires SquareValues(byId)
    ensures vars.Keys == byId.Keys && SquareSets(vars)
  {
    map id | id in byId :: WithVariants(byId[id])
  }

  /** `withVariantsById.values.flatten()`, as a set. */
  function AllVariants(vars: map<int, set<Tile>>): (all: set<Tile>)
    requires SquareSets(vars)
    ensures AllSquare(all)
  {
    set id, v | id in vars && v in vars[id] :: v
  }

  /** `edges`, as a set. */
  function EdgeSet(t: Tile): set<string>
    requires Square(t.grid)
  {
    var e := Edges(t);
    {e[0], e[1], e[2], e[3]}
  }

  function AllEdges(ts: set<Tile>): set<string>
    requires AllSquare(ts)
  {
    set t, e | t in ts && e in EdgeSet(t) :: e
  }

  /** The tiles of ts having edge e. */
  function Having(ts: set<Tile>, e: string): set<Tile>
    requires AllSquare(ts)
  {
    set t | t in ts && e in EdgeSet(t)
  }

  /** `edgeIndex`: each edge of a tile of ts, to the tiles having it. */
  function EdgeIndex(ts: set<Tile>): map<string, set<Tile>>
    requires AllSquare(ts)
  {
    map e | e in AllEdges(ts) :: Having(ts, e)
  }

  /** The first k edges of t. */
  function FirstEdges(t: Tile, k: nat): set<string>
    requires Square(t.grid) && k <= 4
  {
    set i | 0 <= i < k :: Edges(t)[i]
  }

  /** The index of ts with the first k edges of t added. */
  function Partial(ts: set<Tile>, t: Tile, k: nat): map<string, set<Tile>>
    requires AllSquare(ts) && Square(t.grid) && k <= 4
  {
    map e | e in AllEdges(ts) + FirstEdges(t, k) :: Having(ts, e) + (if e in FirstEdges(t, k) then {t} else {})
  }

  lemma PartialStart(ts: set<Tile>, t: Tile)
    requires AllSquare(ts) && Square(t.grid)
    ensures Partial(ts, t, 0) == EdgeIndex(ts)
  {
    assert FirstEdges(t, 0) == {};
    var p := Partial(ts, t, 0);
    var q := EdgeIndex(ts);
    assert p.Keys == q.Keys;
    forall e | e in q ensures p[e] == q[e] {
    }
  }

  lemma PartialEnd(ts: set<Tile>, t: Tile)
    requires AllSquare(ts) && Square(t.grid)
    ensures AllSquare(ts + {t}) && Partial(ts, t, 4) == EdgeIndex(ts + {t})
  {
    var u := ts + {t};
    AllFirstEdges(t);
    AllEdgesAdd(ts, t);
    var p := Partial(ts, t, 4);
    var q := EdgeIndex(u);
    assert p.Keys == q.Keys;
    forall e | e in q ensures p[e] == q[e] {
      HavingAdd(ts, t, e);
    }
  }

  lemma HavingAdd(ts: set<Tile>, t: Tile, e: string)
    requires AllSquare(ts) && Square(t.grid)
    ensures AllSquare(ts + {t}) && Having(ts + {t}, e) == Having(ts, e) + (if e in EdgeSet(t) then {t} else {})
  {
  }

  lemma AllFirstEdges(t: Tile)
    requires Square(t.grid)
    ensures FirstEdges(t, 4) == EdgeSet(t)
  {
    forall x | x in EdgeSet(t) ensures x in FirstEdges(t, 4) {
      var i :| 0 <= i < 4 && Edges(t)[i] == x;
    }
  }

  lemma AllEdgesAdd(ts: set<Tile>, t: Tile)
    requires AllSquare(ts) && Square(t.grid)
    ensures AllSquare(ts + {t}) && AllEdges(ts + {t}) == AllEdges(ts) + EdgeSet(t)
  {
  }

  lemma PartialStep(ts: set<Tile>, t: Tile, k: nat)
    requires AllSquare(ts) && Square(t.grid) && k < 4
    ensures var p := Partial(ts, t, k); var e := Edges(t)[k];
      p[e := (if e in p then p[e] else {}) + {t}] == Partial(ts, t, k + 1)
  {
    var e := Edges(t)[k];
    assert FirstEdges(t, k + 1) == FirstEdges(t, k) + {e};
    var p := Partial(ts, t, k);
    var p' := p[e := (if e in p then p[e] else {}) + {t}];
    var q := Partial(ts, t, k + 1);
    assert p'.Keys == q.Keys;
    forall x | x in q ensures p'[x] == q[x] {
      if x == e && e !in p {
        assert e !in AllEdges(ts);
        assert Having(ts, e) == {};
      }
    }
  }

  /** Building `edgeIndex` over the tiles, one tile and one edge at a time. */
  method BuildIndex(all: set<Tile>) returns (index: map<string, set<Tile>>)
    requires AllSquare(all)
    ensures index == EdgeIndex(all)
  {
    index := map[];
    var todo := all;
    assert EdgeIndex(all - todo) == index by {
      assert all - todo == {};
    }
    while todo != {}
      invariant todo <= all && index == EdgeIndex(all - todo)
      decreases |todo|
    {
      var t :| t in todo;
      var done := all - todo;
      PartialStart(done, t);
      var edges := Edges(t);
      for k := 0 to 4
        invariant index == Partial(done, t, k)
      {
        PartialStep(done, t, k);
        var have := if edges[k] in index then index[edges[k]] else {};
        index := index[edges[k] := have + {t}];
      }
      PartialEnd(done, t);
      todo := todo - {t};
      assert all - todo == done + {t};
    }
    assert all - todo == all;
  }

  /** The ids, other than `id`, of the tiles found in the index under some
      edge of one of `vs`. */
  function Matches(index: map<string, set<Tile>>, vs: set<Tile>, id: int): set<int>
    requires AllSquare(vs)
  {
    set v, e, u | v in vs && e in EdgeSet(v) && e in index && u in index[e] && u.id != id :: u.id
  }

  /** The ids of the tiles sharing an edge with exactly two other ids. */
  function Corners(vars: map<int, set<Tile>>, index: map<string, set<Tile>>): set<int>
    requires SquareSets(vars)
  {
    set id | id in vars && |Matches(index, vars[id], id)| == 2
  }

  /** The ids whose tiles have an edge in common with the tile of `id`,
      each edge taken in both directions. */
  function Neighbours(byId: map<int, Tile>, id: int): set<int>
    requires SquareValues(byId) && id in byId
  {
    set j | j in byId && j != id && Oriented(byId[j]) * Oriented(byId[id]) != {}
  }

  /** Every tile is filed under its own id. */
  predicate KeyedById(byId: map<int, Tile>)
  {
    forall i :: i in byId ==> byId[i].id == i
  }

  /** Looking the variants' edges up in the index finds exactly the other
      tiles sharing an edge in either direction. */
  lemma MatchesMeaning(byId: map<int, Tile>, id: int)
    requires SquareValues(byId) && KeyedById(byId) && id in byId
    ensures var vars := VariantsById(byId);
      Matches(EdgeIndex(AllVariants(vars)), vars[id], id) == Neighbours(byId, id)
  {
    var vars := VariantsById(byId);
    forall j | j in Matches(EdgeIndex(AllVariants(vars)), vars[id], id)
      ensures j in Neighbours(byId, id)
    {
      MatchIsNeighbour(byId, id, j);
    }
    forall j | j in Neighbours(byId, id)
      ensures j in Matches(EdgeIndex(AllVariants(vars)), vars[id], id)
    {
      NeighbourIsMatch(byId, id, j);
    }
  }

  lemma MatchIsNeighbour(byId: map<int, Tile>, id: int, j: int)
    requires SquareValues(byId) && KeyedById(byId) && id in byId
    requires var vars := VariantsById(byId); j in Matches(EdgeIndex(AllVariants(vars)), vars[id], id)
    ensures j in Neighbours(byId, id)
  {
    var vars := VariantsById(byId);
    var all := AllVariants(vars);
    var index := EdgeIndex(all);
    var v, e, u := MatchWitness(index, vars[id], id, j);
    IndexedIn(all, e, u);
    var i := InSomeSet(vars, u);
    assert vars[i] == WithVariants(byId[i]) && vars[id] == WithVariants(byId[id]);
    VariantOf(byId[i], u, e);
    VariantOf(byId[id], v, e);
    assert i == j && j in byId && j != id;
    SharedEdge(byId[j], byId[id], e);
  }

  lemma SharedEdge(a: Tile, b: Tile, e: string)
    requires Square(a.grid) && Square(b.grid) && e in Oriented(a) && e in Oriented(b)
    ensures Oriented(a) * Oriented(b) != {}
  {
    assert e in Oriented(a) * Oriented(b);
  }

  lemma NeighbourIsMatch(byId: map<int, Tile>, id: int, j: int)
    requires SquareValues(byId) && KeyedById(byId) && id in byId
    requires j in Neighbours(byId, id)
    ensures var vars := VariantsById(byId); j in Matches(EdgeIndex(AllVariants(vars)), vars[id], id)
  {
    var vars := VariantsById(byId);
    var all := AllVariants(vars);
    var x :| x in Oriented(byId[j]) * Oriented(byId[id]);
    var u := EdgeOfVariant(byId, j, x);
    var v := EdgeOfVariant(byId, id, x);
    assert u in all;
    IndexHas(all, u, x);
  }

  lemma MatchWitness(index: map<string, set<Tile>>, vs: set<Tile>, id: int, j: int) returns (v: Tile, e: string, u: Tile)
    requires AllSquare(vs) && j in Matches(index, vs, id)
    ensures v in vs && e in EdgeSet(v) && e in index && u in index[e] && u.id != id && u.id == j
  {
    v, e, u :| v in vs && e in EdgeSet(v) && e in index && u in index[e] && u.id != id && u.id == j;
  }

  /** What the index files under e has e as an edge. */
  lemma IndexedIn(all: set<Tile>, e: string, u: Tile)
    requires AllSquare(all) && e in EdgeIndex(all) && u in EdgeIndex(all)[e]
    ensures u in all && e in EdgeSet(u)
  {
  }

  /** Every edge of every tile is filed under that edge. */
  lemma IndexHas(all: set<Tile>, u: Tile, e: string)
    requires AllSquare(all) && u in all && e in EdgeSet(u)
    ensures e in EdgeIndex(all) && u in EdgeIndex(all)[e]
  {
    assert e in AllEdges(all);
  }

  lemma InSomeSet(vars: map<int, set<Tile>>, u: Tile) returns (i: int)
    requires SquareSets(vars) && u in AllVariants(vars)
    ensures i in vars && u in vars[i]
  {
    i :| i in vars && u in vars[i];
  }

  /** A variant of a tile has the tile's id and only the tile's edges, in
      either direction. */
  lemma VariantOf(t: Tile, u: Tile, e: string)
    requires Square(t.grid) && u in WithVariants(t) && Square(u.grid) && e in EdgeSet(u)
    ensures u.id == t.id && e in Oriented(t)
  {
    assert u in Variants(t) + {t};
    var k :| 0 <= k < 4 && Edges(u)[k] == e;
    VariantsKeep(t);
    VariantEdges(t);
  }

  /** Every edge of a tile, in either direction, is an edge of one of its
      variants. */
  lemma EdgeOfVariant(byId: map<int, Tile>, i: int, x: string) returns (u: Tile)
    requires SquareValues(byId) && KeyedById(byId) && i in byId && x in Oriented(byId[i])
    ensures u in VariantsById(byId)[i] && Square(u.grid) && x in EdgeSet(u) && u.id == i
  {
    var t := byId[i];
    VariantEdges(t);
    VariantsKeep(t);
    var k;
    u, k :| u in Variants(t) + {t} && 0 <= k < 4 && Square(u.grid) && Edges(u)[k] == x;
    assert u in WithVariants(t);
  }

  /** The product of f over a finite set. */
  ghost function Product<T>(s: set<T>, f: T -> int): int
    decreases |s|
  {
    if s == {} then 1
    else
      var x :| x in s;
      f(x) * Product(s - {x}, f)
  }

  /** The product does not depend on which element is taken first. */
  lemma {:induction false} ProductPick<T>(s: set<T>, f: T -> int, x: T)
    requires x in s
    ensures Product(s, f) == f(x) * Product(s - {x}, f)
    decreases |s|
  {
    var y :| y in s && Product(s, f) == f(y) * Product(s - {y}, f);
    if y != x {
      var r := s - {x} - {y};
      assert s - {y} - {x} == r;
      ProductPick(s - {y}, f, x);
      ProductPick(s - {x}, f, y);
      var p := Product(r, f);
      assert f(y) * (f(x) * p) == f(x) * (f(y) * p);
    }
  }

  function Ident(x: int): int { x }

  /** The answer: the product of the corner ids. */
  ghost function CornerProduct(byId: map<int, Tile>): int
    requires SquareValues(byId)
  {
    var vars := VariantsById(byId);
    Product(Corners(vars, EdgeIndex(AllVariants(vars))), Ident)
  }

  /** A corner is an id whose tile shares an edge, in some direction, with
      exactly two other tiles. */
  lemma CornersMeaning(byId: map<int, Tile>)
    requires SquareValues(byId) && KeyedById(byId)
    ensures var vars := VariantsById(byId);
      Corners(vars, EdgeIndex(AllVariants(vars))) == set id | id in byId && |Neighbours(byId, id)| == 2
  {
    var vars := VariantsById(byId);
    forall id | id in byId ensures Matches(EdgeIndex(AllVariants(vars)), vars[id], id) == Neighbours(byId, id) {
      MatchesMeaning(byId, id);
    }
  }

  lemma ProductStep(s: set<int>, todo: set<int>, x: int)
    requires x in todo
    ensures Product(s - (todo - {x}), Ident) == (if x in s then x else 1) * Product(s - todo, Ident)
  {
    var before, after := s - todo, s - (todo - {x});
    if x in s {
      ProductPick(after, Ident, x);
      assert after - {x} == before by {
        forall y ensures y in after - {x} <==> y in before {
        }
      }
    } else {
      assert after == before by {
        forall y ensures y in after <==> y in before {
        }
      }
    }
  }

  /** The loop of `Part1.solve` over the tiles: multiply the ids whose
      tiles match exactly two other ids. */
  method CornerIds(vars: map<int, set<Tile>>, index: map<string, set<Tile>>) returns (product: int)
    requires SquareSets(vars)
    ensures product == Product(Corners(vars, index), Ident)
  {
    ghost var corners := Corners(vars, index);
    product := 1;
    var todo := vars.Keys;
    assert corners - todo == {};
    while todo != {}
      invariant todo <= vars.Keys
      invariant product == Product(corners - todo, Ident)
      decreases |todo|
    {
      var id :| id in todo;
      var matches := Matches(index, vars[id], id);
      assert id in corners <==> |matches| == 2;
      ProductStep(corners, todo, id);
      if |matches| == 2 {
        product := id * product;
      }
      todo := todo - {id};
    }
    assert corners - todo == corners;
  }

  /** `Part1.solve`, from the paragraphs of the input. */
  method Part1(paragraphs: seq<string>) returns (r: Result<int>)
    ensures ParseTiles(paragraphs).Err? ==> r == Err(ParseTiles(paragraphs).msg)
    ensures ParseTiles(paragraphs).Ok? ==>
      var byId := ById(ParseTiles(paragraphs).value);
      SquareValues(byId) && KeyedById(byId) && r == Ok(CornerProduct(byId))
  {
    var parsed := ParseTiles(paragraphs);
    if parsed.Err? {
      return Err(parsed.msg);
    }
    var byId := ById(parsed.value);
    var vars := VariantsById(byId);
    var index := BuildIndex(AllVariants(vars));
    var product := CornerIds(vars, index);
    return Ok(product);
  }
}
