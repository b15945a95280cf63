/** 2020 day 21: ingredient lists with the allergens they are known to
    contain. An allergen's candidates are the ingredients of every line that
    lists it; Part 1 counts the occurrences of ingredients that are no
    allergen's candidate, Part 2 pins each allergen to one ingredient. */
module Y2020Dec21 {
  import opened Common

  /** One parsed line: the ingredients, then the allergens after "contains". */
  datatype Food = Food(ingredients: seq<string>, allergens: seq<string>)

  function Elems(s: seq<string>): set<string> { set x | x in s }

  // ------------------------------------------------------------ counting

  /** How often `x` is listed in `s`. */
  function Occurs(s: seq<string>, x: string): nat
  {
    if s == [] then 0 else Occurs(s[..|s| - 1], x) + (if s[|s| - 1] == x then 1 else 0)
  }

  /** How often ingredient `x` is listed over all lines. */
  function Occurrences(foods: seq<Food>, x: string): nat
  {
    if foods == [] then 0
    else Occurrences(foods[..|foods| - 1], x) + Occurs(foods[|foods| - 1].ingredients, x)
  }

  function Ingredients(foods: seq<Food>): set<string>
  {
    set k, x | 0 <= k < |foods| && x in foods[k].ingredients :: x
  }

  /** `ingredientCounts` once every line is read. */
  function IngredientCounts(foods: seq<Food>): map<string, int>
  {
    map x | x in Ingredients(foods) :: Occurrences(foods, x)
  }

  lemma {:induction false} OccursPositive(s: seq<string>, x: string)
    ensures Occurs(s, x) > 0 <==> x in s
  {
    if s != [] {
      OccursPositive(s[..|s| - 1], x);
      assert s == s[..|s| - 1] + [s[|s| - 1]];
    }
  }

  /** Every ingredient counted is listed at least once. */
  lemma {:induction false} OccurrencesPositive(foods: seq<Food>, x: string)
    ensures Occurrences(foods, x) > 0 <==> x in Ingredients(foods)
  {
    if foods != [] {
      var n := |foods| - 1;
      OccurrencesPositive(foods[..n], x);
      OccursPositive(foods[n].ingredients, x);
      IngredientsStep(foods[..n], foods[n]);
      assert foods[..n] + [foods[n]] == foods;
    }
  }

  lemma IngredientsStep(foods: seq<Food>, f: Food)
    ensures Ingredients(foods + [f]) == Ingredients(foods) + Elems(f.ingredients)
  {
    var g := foods + [f];
    forall x | x in Ingredients(g) ensures x in Ingredients(foods) + Elems(f.ingredients) {
      var k :| 0 <= k < |g| && x in g[k].ingredients;
      if k < |foods| { assert g[k] == foods[k]; }
    }
    forall x | x in Ingredients(foods) + Elems(f.ingredients) ensures x in Ingredients(g) {
      if x in Ingredients(foods) {
        var k :| 0 <= k < |foods| && x in foods[k].ingredients;
        assert g[k] == foods[k];
      } else {
        assert g[|foods|] == f;
      }
    }
  }

  lemma OccurrencesLast(done: seq<Food>, f: Food, y: string)
    ensures Occurrences(done + [f], y) == Occurrences(done, y) + Occurs(f.ingredients, y)
  {
    assert (done + [f])[..|done|] == done;
  }

  lemma OccursLast(s: seq<string>, j: nat, y: string)
    requires j < |s|
    ensures Occurs(s[..j + 1], y) == Occurs(s[..j], y) + (if s[j] == y then 1 else 0)
  {
    assert s[..j + 1][..j] == s[..j];
  }

  lemma StepKeys(done: seq<Food>, ings: seq<string>, j: nat)
    requires j < |ings|
    ensures Ingredients(done + [Food(ings[..j + 1], [])]) == Ingredients(done + [Food(ings[..j], [])]) + {ings[j]}
  {
    IngredientsStep(done, Food(ings[..j], []));
    IngredientsStep(done, Food(ings[..j + 1], []));
    assert ings[..j + 1] == ings[..j] + [ings[j]];
    assert Elems(ings[..j + 1]) == Elems(ings[..j]) + {ings[j]};
  }

  lemma StepValue(done: seq<Food>, ings: seq<string>, j: nat, y: string)
    requires j < |ings|
    ensures Occurrences(done + [Food(ings[..j + 1], [])], y) ==
      Occurrences(done + [Food(ings[..j], [])], y) + (if ings[j] == y then 1 else 0)
  {
    OccurrencesLast(done, Food(ings[..j], []), y);
    OccurrencesLast(done, Food(ings[..j + 1], []), y);
    OccursLast(ings, j, y);
  }

  /** The counts after lines `done` and the first j ingredients of line f. */
  lemma CountStep(done: seq<Food>, f: Food, j: nat, counts: map<string, int>)
    requires j < |f.ingredients|
    requires counts == IngredientCounts(done + [Food(f.ingredients[..j], [])])
    ensures var x := f.ingredients[j];
      counts[x := (if x in counts then counts[x] else 0) + 1] == IngredientCounts(done + [Food(f.ingredients[..j + 1], [])])
  {
    var ings := f.ingredients;
    var x := ings[j];
    var a, b := done + [Food(ings[..j], [])], done + [Food(ings[..j + 1], [])];
    var m := counts[x := (if x in counts then counts[x] else 0) + 1];
    StepKeys(done, ings, j);
    OccurrencesPositive(a, x);
    forall y | y in m ensures m[y] == Occurrences(b, y) {
      StepValue(done, ings, j, y);
    }
    CountsAre(m, b);
  }

  lemma CountsAre(m: map<string, int>, foods: seq<Food>)
    requires m.Keys == Ingredients(foods) && forall y :: y in m ==> m[y] == Occurrences(foods, y)
    ensures m == IngredientCounts(foods)
  {
  }

  /** Counting reads only the ingredients of a line. */
  lemma CountsIgnoreAllergens(done: seq<Food>, f: Food)
    ensures IngredientCounts(done + [Food(f.ingredients, [])]) == IngredientCounts(done + [f])
  {
    IngredientsStep(done, f);
    IngredientsStep(done, Food(f.ingredients, []));
    forall y ensures Occurrences(done + [Food(f.ingredients, [])], y) == Occurrences(done + [f], y) {
      OccurrencesLast(done, f, y);
      OccurrencesLast(done, Food(f.ingredients, []), y);
    }
  }

  /** A line with nothing on it counts nothing. */
  lemma CountsEmptyLine(done: seq<Food>)
    ensures IngredientCounts(done + [Food([], [])]) == IngredientCounts(done)
  {
    IngredientsStep(done, Food([], []));
    forall y ensures Occurrences(done + [Food([], [])], y) == Occurrences(done, y) {
      OccurrencesLast(done, Food([], []), y);
    }
  }

  /** The line loop: one increment per ingredient listed. */
  method CountLine(foods: seq<Food>, k: nat, counts0: map<string, int>) returns (counts: map<string, int>)
    requires k < |foods| && counts0 == IngredientCounts(foods[..k])
    ensures counts == IngredientCounts(foods[..k + 1])
  {
    var done, ings := foods[..k], foods[k].ingredients;
    counts := counts0;
    CountsEmptyLine(done);
    assert ings[..0] == [];
    for j := 0 to |ings|
      invariant counts == IngredientCounts(done + [Food(ings[..j], [])])
    {
      CountStep(done, foods[k], j, counts);
      var x := ings[j];
      counts := counts[x := (if x in counts then counts[x] else 0) + 1];
    }
    assert ings[..|ings|] == ings;
    CountsIgnoreAllergens(done, foods[k]);
    assert foods[..k + 1] == done + [foods[k]];
  }

  /** `ingredientCounts`: each ingredient with its number of occurrences. */
  method CountIngredients(foods: seq<Food>) returns (counts: map<string, int>)
    ensures counts == IngredientCounts(foods)
  {
    counts := map[];
    assert IngredientCounts(foods[..0]) == map[];
    for k := 0 to |foods|
      invariant counts == IngredientCounts(foods[..k])
    {
      counts := CountLine(foods, k, counts);
    }
    assert foods[..|foods|] == foods;
  }

  // ---------------------------------------------------------- candidates

  /** `allergenCandidates[a]` after `foods`: absent until a line lists a,
      then that line's ingredients, narrowed by every later line listing a. */
  function CandidatesOf(foods: seq<Food>, a: string): (r: Option<set<string>>)
    ensures r.Some? <==> exists k :: 0 <= k < |foods| && a in foods[k].allergens
  {
    if foods == [] then None
    else
      var n := |foods| - 1;
      var prev := CandidatesOf(foods[..n], a);
      assert forall k :: 0 <= k < n ==> foods[..n][k] == foods[k];
      if a !in foods[n].allergens then prev
      else if prev.None? then Some(Elems(foods[n].ingredients))
      else Some(prev.value * Elems(foods[n].ingredients))
  }

  /** The candidates of an allergen are exactly the ingredients listed on
      every line that lists the allergen. */
  lemma {:induction false} CandidatesMeaning(foods: seq<Food>, a: string, x: string)
    requires CandidatesOf(foods, a).Some?
    ensures x in CandidatesOf(foods, a).value <==>
      forall k :: 0 <= k < |foods| && a in foods[k].allergens ==> x in foods[k].ingredients
  {
    var n := |foods| - 1;
    assert forall k :: 0 <= k < n ==> foods[..n][k] == foods[k];
    if CandidatesOf(foods[..n], a).Some? {
      CandidatesMeaning(foods[..n], a, x);
    }
  }

  function Listed(foods: seq<Food>): set<string>
  {
    set k, a | 0 <= k < |foods| && a in foods[k].allergens :: a
  }

  /** `allergenCandidates` once every line is read. */
  function Candidates(foods: seq<Food>): map<string, set<string>>
  {
    map a | a in Listed(foods) :: CandidatesOf(foods, a).value
  }

  /** Appends the entries of xs that are new, in order: the key order of a
      `LinkedHashMap` into which xs are put. */
  function AddNew(order: seq<string>, xs: seq<string>): (r: seq<string>)
    ensures Elems(r) == Elems(order) + Elems(xs)
    ensures NoDup(order) ==> NoDup(r)
    decreases |xs|
  {
    if xs == [] then order
    else if xs[0] in order then AddNew(order, xs[1..])
    else AddNew(order + [xs[0]], xs[1..])
  }

  predicate NoDup(s: seq<string>)
  {
    forall i, j :: 0 <= i < j < |s| ==> s[i] != s[j]
  }

  /** The allergens in the order they first appear. */
  function Order(foods: seq<Food>): (r: seq<string>)
    ensures NoDup(r) && Elems(r) == Listed(foods)
  {
    if foods == [] then []
    else
      var n := |foods| - 1;
      ListedStep(foods[..n], foods[n]);
      assert foods[..n] + [foods[n]] == foods;
      AddNew(Order(foods[..n]), foods[n].allergens)
  }

  lemma ListedStep(foods: seq<Food>, f: Food)
    ensures Listed(foods + [f]) == Listed(foods) + Elems(f.allergens)
  {
    var g := foods + [f];
    forall a | a in Listed(g) ensures a in Listed(foods) + Elems(f.allergens) {
      var k :| 0 <= k < |g| && a in g[k].allergens;
      if k < |foods| { assert g[k] == foods[k]; }
    }
    forall a | a in Listed(foods) + Elems(f.allergens) ensures a in Listed(g) {
      if a in Listed(foods) {
        var k :| 0 <= k < |foods| && a in foods[k].allergens;
        assert g[k] == foods[k];
      } else {
        assert g[|foods|] == f;
      }
    }
  }

  /** The table after lines `done` and the first j allergens of line f. */
  function Partial(done: seq<Food>, f: Food, j: nat): seq<Food>
    requires j <= |f.allergens|
  {
    done + [Food(f.ingredients, f.allergens[..j])]
  }

  /** The last line of a table decides whether it narrows a's candidates. */
  lemma CandidatesOfLast(done: seq<Food>, f: Food, b: string)
    ensures CandidatesOf(done + [f], b) ==
      if b !in f.allergens then CandidatesOf(done, b)
      else if CandidatesOf(done, b).None? then Some(Elems(f.ingredients))
      else Some(CandidatesOf(done, b).value * Elems(f.ingredients))
  {
    assert (done + [f])[..|done|] == done;
  }

  lemma CandidatesOfStep(done: seq<Food>, f: Food, j: nat, b: string)
    requires j < |f.allergens|
    ensures var p, q := Partial(done, f, j), Partial(done, f, j + 1); var a := f.allergens[j];
      CandidatesOf(q, b) ==
        if b != a then CandidatesOf(p, b)
        else if CandidatesOf(p, b).Some? then Some(CandidatesOf(p, b).value * Elems(f.ingredients))
        else Some(Elems(f.ingredients))
  {
    var als := f.allergens;
    CandidatesOfLast(done, Food(f.ingredients, als[..j]), b);
    CandidatesOfLast(done, Food(f.ingredients, als[..j + 1]), b);
    assert als[..j + 1] == als[..j] + [als[j]];
    assert b in als[..j + 1] <==> b in als[..j] || b == als[j];
    var s := Elems(f.ingredients);
    assert s * s == s;
    var prev := CandidatesOf(done, b);
    if prev.Some? {
      assert prev.value * s * s == prev.value * s;
    }
  }

  lemma CandidatesAre(m: map<string, set<string>>, foods: seq<Food>)
    requires m.Keys == Listed(foods)
    requires forall b :: b in m ==> CandidatesOf(foods, b) == Some(m[b])
    ensures m == Candidates(foods)
  {
  }

  /** One allergen of a line: intersect its candidates, or add it. */
  /** One allergen of a line: intersect its candidates, or add it. */
  lemma CollectStep(done: seq<Food>, f: Food, j: nat, order: seq<string>, cands: map<string, set<string>>)
    requires j < |f.allergens|
    requires order == Order(Partial(done, f, j)) && cands == Candidates(Partial(done, f, j))
    ensures var a := f.allergens[j]; var s := Elems(f.ingredients);
      (if a in cands then order else order + [a]) == Order(Partial(done, f, j + 1)) &&
      (if a in cands then cands[a := cands[a] * s] else cands[a := s]) == Candidates(Partial(done, f, j + 1))
  {
    OrderStep(done, f, j);
    NarrowStep(done, f, j, cands);
  }

  lemma NarrowStep(done: seq<Food>, f: Food, j: nat, cands: map<string, set<string>>)
    requires j < |f.allergens|
    requires cands == Candidates(Partial(done, f, j))
    ensures var a := f.allergens[j]; var s := Elems(f.ingredients);
      (if a in cands then cands[a := cands[a] * s] else cands[a := s]) == Candidates(Partial(done, f, j + 1))
  {
    var q := Partial(done, f, j + 1);
    var a := f.allergens[j];
    var s := Elems(f.ingredients);
    ListedPartialStep(done, f, j);
    var m := if a in cands then cands[a := cands[a] * s] else cands[a := s];
    assert m.Keys == cands.Keys + {a};
    forall b | b in m ensures CandidatesOf(q, b) == Some(m[b]) {
      CandidatesOfStep(done, f, j, b);
    }
    CandidatesAre(m, q);
  }

  lemma ListedPartialStep(done: seq<Food>, f: Food, j: nat)
    requires j < |f.allergens|
    ensures Listed(Partial(done, f, j + 1)) == Listed(Partial(done, f, j)) + {f.allergens[j]}
  {
    ListedStep(done, Food(f.ingredients, f.allergens[..j]));
    ListedStep(done, Food(f.ingredients, f.allergens[..j + 1]));
    assert f.allergens[..j + 1] == f.allergens[..j] + [f.allergens[j]];
    assert Elems(f.allergens[..j + 1]) == Elems(f.allergens[..j]) + {f.allergens[j]};
  }

  lemma OrderStep(done: seq<Food>, f: Food, j: nat)
    requires j < |f.allergens|
    ensures var a := f.allergens[j]; var o := Order(Partial(done, f, j));
      Order(Partial(done, f, j + 1)) == if a in Listed(Partial(done, f, j)) then o else o + [a]
  {
    var p, q := Partial(done, f, j), Partial(done, f, j + 1);
    assert p[..|p| - 1] == done && q[..|q| - 1] == done;
    assert f.allergens[..j + 1] == f.allergens[..j] + [f.allergens[j]];
    AddNewStep(Order(done), f.allergens[..j], f.allergens[j]);
  }

  lemma {:induction false} AddNewStep(order: seq<string>, xs: seq<string>, x: string)
    ensures AddNew(order, xs + [x]) == var o := AddNew(order, xs); if x in o then o else o + [x]
    decreases |xs|
  {
    if xs == [] {
      assert AddNew(order, [x]) == AddNew(if x in order then order else order + [x], []);
    } else {
      assert (xs + [x])[1..] == xs[1..] + [x];
      if xs[0] in order {
        AddNewStep(order, xs[1..], x);
      } else {
        AddNewStep(order + [xs[0]], xs[1..], x);
      }
    }
  }

  /** The allergen loop of one line. */
  method CollectLine(foods: seq<Food>, k: nat, order0: seq<string>, cands0: map<string, set<string>>)
    returns (order: seq<string>, cands: map<string, set<string>>)
    requires k < |foods| && order0 == Order(foods[..k]) && cands0 == Candidates(foods[..k])
    ensures order == Order(foods[..k + 1]) && cands == Candidates(foods[..k + 1])
  {
    var f := foods[k];
    var s := Elems(f.ingredients);
    order, cands := order0, cands0;
    PartialStart(foods[..k], f);
    for j := 0 to |f.allergens|
      invariant order == Order(Partial(foods[..k], f, j)) && cands == Candidates(Partial(foods[..k], f, j))
    {
      CollectStep(foods[..k], f, j, order, cands);
      var a := f.allergens[j];
      if a in cands {
        cands := cands[a := cands[a] * s];
      } else {
        cands := cands[a := s];
        order := order + [a];
      }
    }
    assert f.allergens[..|f.allergens|] == f.allergens;
    assert foods[..k + 1] == foods[..k] + [f];
  }

  /** A line that lists no allergen yet changes nothing. */
  lemma PartialStart(done: seq<Food>, f: Food)
    ensures Order(Partial(done, f, 0)) == Order(done) && Candidates(Partial(done, f, 0)) == Candidates(done)
  {
    var p := Partial(done, f, 0);
    assert p[..|p| - 1] == done;
    ListedStep(done, Food(f.ingredients, []));
    forall b | b in Listed(done) ensures CandidatesOf(p, b) == CandidatesOf(done, b) {
    }
  }

  /** The line loop filling `allergenCandidates`, with its key order. */
  method Collect(foods: seq<Food>) returns (order: seq<string>, cands: map<string, set<string>>)
    ensures order == Order(foods) && cands == Candidates(foods)
  {
    order, cands := [], map[];
    assert Listed(foods[..0]) == {};
    for k := 0 to |foods|
      invariant order == Order(foods[..k]) && cands == Candidates(foods[..k])
    {
      order, cands := CollectLine(foods, k, order, cands);
    }
    assert foods[..|foods|] == foods;
  }

  // -------------------------------------------------------------- part 1

  /** Ingredients that are some allergen's candidate. */
  function Unsafe(cands: map<string, set<string>>): set<string>
  {
    set a, x | a in cands && x in cands[a] :: x
  }

  /** The counts of the ingredients that can hold no allergen. */
  function SafeCounts(foods: seq<Food>): map<string, int>
  {
    var counts := IngredientCounts(foods);
    var unsafe := Unsafe(Candidates(foods));
    map x | x in counts && x !in unsafe :: counts[x]
  }

  /** An ingredient is counted iff it is listed, and every allergen is
      listed on some line that does not list the ingredient. */
  lemma SafeMeaning(foods: seq<Food>, x: string)
    ensures x in SafeCounts(foods) <==>
      x in Ingredients(foods) &&
      forall a :: a in Listed(foods) ==>
        exists k :: 0 <= k < |foods| && a in foods[k].allergens && x !in foods[k].ingredients
    ensures x in SafeCounts(foods) ==> SafeCounts(foods)[x] == Occurrences(foods, x) > 0
  {
    var c := Candidates(foods);
    forall a | a in Listed(foods)
      ensures x in c[a] <==> forall k :: 0 <= k < |foods| && a in foods[k].allergens ==> x in foods[k].ingredients
    {
      CandidatesMeaning(foods, a, x);
    }
    OccurrencesPositive(foods, x);
  }

  /** Part 1: the occurrences of ingredients that are no allergen's candidate. */
  method Part1(foods: seq<Food>) returns (total: int)
    ensures total == ValuesSum(SafeCounts(foods))
  {
    var counts := CountIngredients(foods);
    var order, cands := Collect(foods);
    var unsafe := Unsafe(cands);
    var safe := map x | x in counts && x !in unsafe :: counts[x];
    total := SumValues(safe);
  }

  // -------------------------------------------------------------- part 2

  /** The queue's keys in the map's iteration order. */
  predicate Keyed(order: seq<string>, q: map<string, set<string>>)
  {
    NoDup(order) && Elems(order) == q.Keys
  }

  /** `minByOrNull { it.value.size }`: the first key of least set size. */
  function FirstMin(order: seq<string>, q: map<string, set<string>>): (a: string)
    requires order != [] && forall b :: b in order ==> b in q
    ensures a in order
    ensures forall b :: b in order ==> |q[a]| <= |q[b]|
    ensures exists k :: 0 <= k < |order| && order[k] == a && forall i :: 0 <= i < k ==> |q[order[i]]| > |q[a]|
  {
    if |order| == 1 then order[0]
    else
      var rest := FirstMin(order[1..], q);
      if |q[order[0]]| <= |q[rest]| then order[0]
      else
        var k :| 0 <= k < |order| - 1 && order[1..][k] == rest && forall i :: 0 <= i < k ==> |q[order[1..][i]]| > |q[rest]|;
        assert order[k + 1] == rest;
        rest
  }

  lemma NoDupCons(x: string, s: seq<string>)
    ensures NoDup([x] + s) <==> x !in s && NoDup(s)
  {
    var t := [x] + s;
    if NoDup(t) {
      forall i, j | 0 <= i < j < |s| ensures s[i] != s[j] {
        assert s[i] == t[i + 1] && s[j] == t[j + 1];
      }
      forall i | 0 <= i < |s| ensures s[i] != x {
        assert t[0] == x && t[i + 1] == s[i];
      }
    }
  }

  /** `queue.remove(a)` on the key order. */
  function Without(order: seq<string>, a: string): (r: seq<string>)
    ensures Elems(r) == Elems(order) - {a}
    ensures NoDup(order) ==> NoDup(r)
    ensures |r| <= |order| && (a in order ==> |r| < |order|)
  {
    if order == [] then []
    else
      assert order == [order[0]] + order[1..];
      assert Elems(order) == {order[0]} + Elems(order[1..]);
      NoDupCons(order[0], order[1..]);
      var w := Without(order[1..], a);
      if order[0] == a then w
      else
        NoDupCons(order[0], w);
        assert Elems([order[0]] + w) == {order[0]} + Elems(w);
        [order[0]] + w
  }

  /** One round of the loop on the queue: a is removed and x is removed from
      every other allergen's candidates. */
  function Drop(q: map<string, set<string>>, a: string, x: string): (r: map<string, set<string>>)
    ensures r.Keys == q.Keys - {a}
    ensures forall b :: b in r ==> r[b] == q[b] - {x}
  {
    map b | b in q && b != a :: q[b] - {x}
  }

  lemma Singleton(s: set<string>, x: string, y: string)
    requires |s| == 1 && x in s && y in s
    ensures x == y
  {
    assert s * {x} == {x};
    assert |s - {x}| == 0;
    assert s - {x} == {};
  }

  /** The elimination loop: take the allergen with the fewest candidates,
      fail unless exactly one remains, assign it, and drop that ingredient
      from every other allergen's candidates. */
  ghost function Resolve(order: seq<string>, q: map<string, set<string>>, pinned: map<string, string>)
    : Result<map<string, string>>
    requires Keyed(order, q)
    decreases |order|
  {
    if order == [] then Ok(pinned)
    else
      var a := FirstMin(order, q);
      if |q[a]| != 1 then Err("IllegalStateException")
      else
        assert q[a] != {};
        var x :| x in q[a];
        Resolve(Without(order, a), Drop(q, a, x), pinned[a := x])
  }

  /** Which single candidate the round picks does not matter: there is one. */
  lemma ResolveStep(order: seq<string>, q: map<string, set<string>>, pinned: map<string, string>, x: string)
    requires Keyed(order, q) && order != []
    requires |q[FirstMin(order, q)]| == 1 && x in q[FirstMin(order, q)]
    ensures var a := FirstMin(order, q);
      Resolve(order, q, pinned) == Resolve(Without(order, a), Drop(q, a, x), pinned[a := x])
  {
    var a := FirstMin(order, q);
    var y :| y in q[a] && Resolve(order, q, pinned) == Resolve(Without(order, a), Drop(q, a, y), pinned[a := y]);
    Singleton(q[a], x, y);
  }

  predicate Injective(m: map<string, string>)
  {
    forall a, b :: a in m && b in m && a != b ==> m[a] != m[b]
  }

  /** What the loop keeps: the pinned allergens are out of the queue, their
      ingredients are distinct and out of every candidate set. */
  predicate Apart(q: map<string, set<string>>, pinned: map<string, string>)
  {
    Injective(pinned) && q.Keys !! pinned.Keys &&
    forall b, c :: b in q && c in pinned ==> pinned[c] !in q[b]
  }

  lemma ApartStep(q: map<string, set<string>>, pinned: map<string, string>, a: string, x: string)
    requires Apart(q, pinned) && a in q && x in q[a]
    ensures Apart(Drop(q, a, x), pinned[a := x])
  {
    var q', p' := Drop(q, a, x), pinned[a := x];
    forall b, c | b in q' && c in p' ensures p'[c] !in q'[b] {
      if c != a {
        assert pinned[c] !in q[b];
      }
    }
    forall c, d | c in p' && d in p' && c != d ensures p'[c] != p'[d] {
      if c == a {
        assert pinned[d] !in q[a];
      } else if d == a {
        assert pinned[c] !in q[a];
      }
    }
  }

  /** What a finished assignment m says about a queue and the pinned map:
      it keeps what was pinned, gives each queued allergen one of its
      candidates, and gives no two allergens the same ingredient. */
  predicate Sound(m: map<string, string>, q: map<string, set<string>>, pinned: map<string, string>)
  {
    m.Keys == pinned.Keys + q.Keys && Injective(m) &&
    (forall a :: a in pinned ==> m[a] == pinned[a]) &&
    (forall a :: a in q ==> m[a] in q[a])
  }

  lemma SoundStep(m: map<string, string>, q: map<string, set<string>>, pinned: map<string, string>, a: string, x: string)
    requires a in q && a !in pinned && x in q[a]
    requires Sound(m, Drop(q, a, x), pinned[a := x])
    ensures Sound(m, q, pinned)
  {
    var q' := Drop(q, a, x);
    forall b | b in q ensures m[b] in q[b] {
      if b != a {
        assert m[b] in q'[b];
      }
    }
  }

  /** What the elimination finds: every allergen of the queue gets one of
      its candidates, no two allergens share an ingredient, and what was
      pinned before stays. */
  lemma {:induction false} ResolveSound(order: seq<string>, q: map<string, set<string>>, pinned: map<string, string>)
    requires Keyed(order, q) && Apart(q, pinned)
    ensures var r := Resolve(order, q, pinned); r.Ok? ==> Sound(r.value, q, pinned)
    decreases |order|
  {
    if order != [] {
      var a := FirstMin(order, q);
      if |q[a]| == 1 {
        assert q[a] != {};
        var x :| x in q[a];
        var rest, q', p' := Without(order, a), Drop(q, a, x), pinned[a := x];
        ResolveStep(order, q, pinned, x);
        ApartStep(q, pinned, a, x);
        ResolveSound(rest, q', p');
        var r := Resolve(rest, q', p');
        if r.Ok? {
          SoundStep(r.value, q, pinned, a, x);
        }
      }
    }
  }

  /** The elimination, started from the collected candidates, pins every
      listed allergen to an ingredient on every line that lists it, and
      no two allergens to the same one. */
  lemma Part2Sound(foods: seq<Food>)
    ensures var r := Resolve(Order(foods), Candidates(foods), map[]);
      r.Ok? ==>
        r.value.Keys == Listed(foods) && Injective(r.value) &&
        forall a, k :: a in r.value && 0 <= k < |foods| && a in foods[k].allergens ==>
          r.value[a] in foods[k].ingredients
  {
    var c := Candidates(foods);
    ResolveSound(Order(foods), c, map[]);
    var r := Resolve(Order(foods), c, map[]);
    if r.Ok? {
      forall a, k | a in r.value && 0 <= k < |foods| && a in foods[k].allergens
        ensures r.value[a] in foods[k].ingredients
      {
        PinnedListed(foods, a, r.value[a], k);
      }
    }
  }

  lemma PinnedListed(foods: seq<Food>, a: string, x: string, k: nat)
    requires a in Listed(foods) && x in Candidates(foods)[a]
    requires k < |foods| && a in foods[k].allergens
    ensures x in foods[k].ingredients
  {
    CandidatesMeaning(foods, a, x);
  }

  /** `allergens.toSortedMap().values.joinToString(",")`. */
  function Render(order: seq<string>, m: map<string, string>): string
    requires Elems(order) <= m.Keys
  {
    var keys := SortStrings(order);
    assert forall i :: 0 <= i < |keys| ==> keys[i] in multiset(order);
    JoinWith(",", seq(|keys|, i requires 0 <= i < |keys| => m[keys[i]]))
  }

  /** The allergens' ingredients, listed by allergen name. */
  ghost function Answer2(foods: seq<Food>): Result<string>
  {
    match Resolve(Order(foods), Candidates(foods), map[])
    case Err(m) => Err(m)
    case Ok(m) =>
      ResolveSound(Order(foods), Candidates(foods), map[]);
      Ok(Render(Order(foods), m))
  }

  /** The `while (queue.isNotEmpty())` loop. */
  method Eliminate(order0: seq<string>, q0: map<string, set<string>>) returns (r: Result<map<string, string>>)
    requires Keyed(order0, q0)
    ensures r == Resolve(order0, q0, map[])
  {
    var order, q, pinned := order0, q0, map[];
    while order != []
      invariant Keyed(order, q)
      invariant Resolve(order, q, pinned) == Resolve(order0, q0, map[])
      decreases |order|
    {
      var a := FirstMin(order, q);
      if |q[a]| != 1 {
        return Err("IllegalStateException");
      }
      assert q[a] != {};
      var x :| x in q[a];
      ResolveStep(order, q, pinned, x);
      pinned := pinned[a := x];
      q := Drop(q, a, x);
      order := Without(order, a);
    }
    return Ok(pinned);
  }

  /** Part 2: collect the candidates, eliminate, and list the pinned
      ingredients by allergen name. */
  method Part2(foods: seq<Food>) returns (r: Result<string>)
    ensures r == Answer2(foods)
  {
    var order, cands := Collect(foods);
    var m := Eliminate(order, cands);
    match m
    case Err(e) => r := Err(e);
    case Ok(pinned) =>
      ResolveSound(order, cands, map[]);
      r := Ok(Render(order, pinned));
  }
}
