/** 2025 day 10, the slower first attempt kept beside the main solution:
    part 1 as a breadth-first search over light patterns that presses only
    buttons toggling a wrong light, and part 2 as a search over joltage
    levels by how much is still missing. */
module Y2025Day10Brute {
  import opened Common
  import opened Modular
  import opened Y2025Day10
  import P2 = Y2025Day10Part2

  // ---------------------------------------------------------------- buttons

  /** `button.size`: how many lights the button toggles. */
  function Size(b: Bits): nat { |b| }

  /** `flipsAny`: the button and the mask `u` share a bit. */
  predicate FlipsAny(b: Bits, u: Bits) { |b * u| > 0 }

  /** `flip`: the mask `u` with the button's bits toggled. */
  function Flip(b: Bits, u: Bits): Bits { Xor(b, u) }

  /** `has`: bit i of the button is set. */
  predicate Has(b: Bits, i: nat) { i in b }

  /** The button shares a bit with the mask exactly when some position is
      set in both. */
  lemma FlipsAnyShared(b: Bits, u: Bits)
    ensures FlipsAny(b, u) <==> exists i :: Has(b, i) && i in u
  {
    if FlipsAny(b, u) {
      var i :| i in b * u;
      assert Has(b, i) && i in u;
    } else {
      forall i | Has(b, i)
        ensures i !in u
      {
        assert i !in b * u;
      }
    }
  }

  /** Flipping twice by the same button restores the mask. */
  lemma FlipTwice(b: Bits, u: Bits)
    ensures Flip(b, Flip(b, u)) == u
  {
    assert forall x :: x in Flip(b, Flip(b, u)) <==> x in u;
  }

  // ---------------------------------------------------------------- parsing

  /** The machine `bruteParseMachine` returns, which also keeps the light
      pattern as written. */
  datatype BruteMachine = BruteMachine(machine: Machine, shape: string)

  /** The pattern between the brackets of a line's first word. */
  function Shape(line: string): string
    requires |Fields(line)| > 0 && |Fields(line)[0]| >= 2
  {
    var first := Fields(line)[0];
    first[1..|first| - 1]
  }

  /** `bruteParseMachine`: the parse of the main solution, and the pattern
      kept as text; the lights asked for are its '#' positions. */
  method BruteParseMachine(line: string) returns (r: Result<BruteMachine>)
    ensures r.Ok? <==> MachineOf(line).Ok?
    ensures r.Err? ==> r.msg == MachineOf(line).msg
    ensures r.Ok? ==> |Fields(line)| > 0 && |Fields(line)[0]| >= 2
    ensures r.Ok? ==> r.value.machine == MachineOf(line).value && r.value.shape == Shape(line)
    ensures r.Ok? ==> Lights(r.value.shape) == r.value.machine.desired
  {
    var words := Fields(line);
    if |words| == 0 {
      return Err("index out of range");
    }
    var first := words[0];
    if |first| < 2 {
      return Err("slice bounds out of range");
    }
    var shape := first[1..|first| - 1];
    var m := ParseMachine(line);
    if m.Err? {
      return Err(m.msg);
    }
    r := Ok(BruteMachine(m.value, shape));
  }

  /** The kept pattern of a written machine line is the pattern written. */
  lemma ShapeOfText(pattern: string, buttons: seq<seq<nat>>, joltage: seq<int>)
    requires SpaceFree(pattern)
    ensures |Fields(MachineText(pattern, buttons, joltage))| > 0
    ensures |Fields(MachineText(pattern, buttons, joltage))[0]| >= 2
    ensures Shape(MachineText(pattern, buttons, joltage)) == pattern
  {
    var head := "[" + pattern + "]";
    var ws := [head] + ButtonTexts(buttons) + [ListText('{', joltage, '}')];
    LineWords(pattern, buttons, joltage);
    FieldsJoin(ws);
    assert Fields(MachineText(pattern, buttons, joltage)) == ws;
    assert head[1..|head| - 1] == pattern;
  }

  // ---------------------------------------------------------------- part 1 states

  /** `state`: how many presses were made and the lights they left on. */
  datatype LightState = LightState(depth: nat, current: Bits)

  /** `state.found`: the lights are the pattern asked for. */
  predicate Lit(m: Machine, s: LightState) { s.current == m.desired }

  /** `state.worthPressing`: the button toggles a light that is wrong. */
  predicate WorthPressing(m: Machine, s: LightState, b: Bits)
  {
    FlipsAny(b, Xor(s.current, m.desired))
  }

  /** `state.press`: one more press, toggling the button's lights. */
  function Press(s: LightState, b: Bits): (t: LightState)
  {
    LightState(s.depth + 1, Flip(b, s.current))
  }

  /** A button is worth pressing exactly when it toggles a light that is
      on but not asked for, or asked for but off. */
  lemma WorthMeansWrongLight(m: Machine, s: LightState, b: Bits)
    ensures WorthPressing(m, s, b) <==> exists i :: i in b && ((i in s.current) != (i in m.desired))
  {
    FlipsAnyShared(b, Xor(s.current, m.desired));
  }

  /** Pressing a button twice costs two presses and changes no light. */
  lemma PressTwice(s: LightState, b: Bits)
    ensures Press(Press(s, b), b) == LightState(s.depth + 2, s.current)
  {
    FlipTwice(b, s.current);
  }

  // ---------------------------------------------------------------- the pruned graph

  /** Pressing button i from pattern y is worth it and gives pattern x. */
  predicate Step(m: Machine, y: Bits, i: nat, x: Bits)
  {
    i < |m.buttons| && FlipsAny(m.buttons[i], Xor(y, m.desired)) && x == Flip(m.buttons[i], y)
  }

  /** Pattern x is reached from no lights by exactly k presses, each of a
      button worth pressing at the time. */
  ghost predicate ReachIn(m: Machine, x: Bits, k: nat)
    decreases k, 1
  {
    if k == 0 then x == {} else exists i: nat :: ReachedBy(m, x, i, k)
  }

  /** The last of those k presses was of button i. */
  ghost predicate ReachedBy(m: Machine, x: Bits, i: nat, k: nat)
    requires k > 0
    decreases k, 0
  {
    i < |m.buttons| && Step(m, Flip(m.buttons[i], x), i, x) && ReachIn(m, Flip(m.buttons[i], x), k - 1)
  }

  lemma StepReach(m: Machine, y: Bits, i: nat, x: Bits, k: nat)
    requires ReachIn(m, y, k) && Step(m, y, i, x)
    ensures ReachIn(m, x, k + 1)
  {
    FlipTwice(m.buttons[i], y);
    assert ReachedBy(m, x, i, k + 1);
  }

  lemma XorEmpty(a: Bits)
    ensures Xor({}, a) == a && Xor(a, {}) == a
  {
  }

  lemma XorSwap(a: Bits, b: Bits)
    ensures Xor(a, b) == Xor(b, a)
  {
  }

  lemma XorShift(b: Bits, x: Bits, r: Bits)
    ensures Xor(Xor(b, x), r) == Xor(x, Xor(r, b))
  {
    assert forall e :: e in Xor(Xor(b, x), r) <==> e in Xor(x, Xor(r, b));
  }

  /** A light on after pressing a set of buttons is toggled by one of
      them. */
  lemma {:induction false} LitByButton(bs: seq<Bits>, p: set<nat>, n: nat, e: nat)
    requires n <= |bs| && e in XorUpTo(bs, p, n)
    ensures exists i :: 0 <= i < n && i in p && e in bs[i]
  {
    if n - 1 in p && e in bs[n - 1] {
      assert 0 <= n - 1 < n && n - 1 in p;
    } else {
      LitByButton(bs, p, n - 1, e);
    }
  }

  lemma XorCancel(b: Bits, a: Bits)
    ensures Xor(b, Xor(a, b)) == a
  {
    assert forall e :: e in Xor(b, Xor(a, b)) <==> e in a;
  }

  lemma XorSolve(x: Bits, d: Bits, t: Bits)
    requires Xor(x, d) == t
    ensures d == Xor(x, t)
  {
    assert forall e :: e in d <==> e in Xor(x, t);
  }

  /** Toggling button i in or out of a set of pressed buttons toggles the
      button's lights. */
  lemma Toggle(bs: seq<Bits>, py: set<nat>, i: nat)
    requires py <= Indices(|bs|) && i < |bs|
    ensures var p := if i in py then py - {i} else py + {i};
            p <= Indices(|bs|) && |p| <= |py| + 1 && XorOf(bs, p) == Flip(bs[i], XorOf(bs, py))
  {
    if i in py {
      var p := py - {i};
      RemoveOne(py, i);
      XorUpToAdd(bs, p, i, |bs|);
      XorCancel(bs[i], XorOf(bs, p));
    } else {
      XorUpToAdd(bs, py, i, |bs|);
      XorSwap(XorOf(bs, py), bs[i]);
    }
  }

  /** Every pattern the search can reach is lit by pressing at most as
      many distinct buttons once each. */
  lemma {:induction false} ParityWitness(m: Machine, x: Bits, k: nat)
    requires ReachIn(m, x, k)
    ensures exists p :: p <= Indices(|m.buttons|) && |p| <= k && XorOf(m.buttons, p) == x
    decreases k
  {
    var bs := m.buttons;
    if k == 0 {
      XorNone(bs, |bs|);
      var p: set<nat> := {};
      assert p <= Indices(|bs|) && |p| <= k && XorOf(bs, p) == x;
    } else {
      var i: nat :| ReachedBy(m, x, i, k);
      var y := Flip(bs[i], x);
      ParityWitness(m, y, k - 1);
      var py :| py <= Indices(|bs|) && |py| <= k - 1 && XorOf(bs, py) == y;
      ParityStep(bs, py, i, x);
    }
  }

  lemma ParityStep(bs: seq<Bits>, py: set<nat>, i: nat, x: Bits)
    requires py <= Indices(|bs|) && i < |bs| && XorOf(bs, py) == Flip(bs[i], x)
    ensures exists p :: p <= Indices(|bs|) && |p| <= |py| + 1 && XorOf(bs, p) == x
  {
    Toggle(bs, py, i);
    FlipTwice(bs[i], x);
    var p := if i in py then py - {i} else py + {i};
    assert p <= Indices(|bs|) && |p| <= |py| + 1 && XorOf(bs, p) == x;
  }

  /** Pressing button i of `rest` leaves the rest of it to light the
      remaining difference. */
  lemma RestStep(bs: seq<Bits>, x: Bits, rest: set<nat>, i: nat, t: Bits)
    requires rest <= Indices(|bs|) && i in rest && i < |bs|
    requires Xor(x, XorOf(bs, rest)) == t
    ensures rest - {i} <= Indices(|bs|) && |rest - {i}| == |rest| - 1
    ensures Xor(Flip(bs[i], x), XorOf(bs, rest - {i})) == t
  {
    var rest' := rest - {i};
    RemoveOne(rest, i);
    XorUpToAdd(bs, rest', i, |bs|);
    XorShift(bs[i], x, XorOf(bs, rest'));
  }

  /** While the pattern differs from the target, some button of `rest`
      toggles a wrong light. */
  lemma PickWrongButton(bs: seq<Bits>, x: Bits, rest: set<nat>, t: Bits)
    requires rest <= Indices(|bs|) && x != t
    requires Xor(x, XorOf(bs, rest)) == t
    ensures exists i :: 0 <= i < |bs| && i in rest && FlipsAny(bs[i], Xor(x, t))
  {
    XorSolve(x, XorOf(bs, rest), t);
    var e :| e in Xor(x, t);
    LitByButton(bs, rest, |bs|, e);
    var i :| 0 <= i < |bs| && i in rest && e in bs[i];
    assert e in bs[i] * Xor(x, t);
  }

  /** From a pattern reached in k presses whose remaining difference to
      the target is lit by the buttons of `rest`, the search reaches the
      target within |rest| more presses: whenever the difference is not
      empty one of those buttons toggles a wrong light. */
  lemma {:induction false} RouteFrom(m: Machine, x: Bits, k: nat, rest: set<nat>)
    requires rest <= Indices(|m.buttons|)
    requires Xor(x, XorOf(m.buttons, rest)) == m.desired
    requires ReachIn(m, x, k)
    ensures ReachWithin(m, k, k + |rest|)
    decreases |rest|
  {
    var bs := m.buttons;
    if x == m.desired {
      assert k <= k <= k + |rest| && ReachIn(m, m.desired, k);
    } else {
      var i := RouteNext(m, x, k, rest);
      RouteFrom(m, Flip(bs[i], x), k + 1, rest - {i});
      Widen(m, k + 1, k + 1 + |rest - {i}|, k, k + |rest|);
    }
  }

  /** The search reaches the target after between lo and hi presses. */
  ghost predicate ReachWithin(m: Machine, lo: nat, hi: nat)
  {
    exists j: nat :: lo <= j <= hi && ReachIn(m, m.desired, j)
  }

  lemma Widen(m: Machine, lo: nat, hi: nat, lo': nat, hi': nat)
    requires ReachWithin(m, lo, hi) && lo' <= lo && hi <= hi'
    ensures ReachWithin(m, lo', hi')
  {
  }

  /** One step of `RouteFrom`: a button of `rest` worth pressing. */
  lemma RouteNext(m: Machine, x: Bits, k: nat, rest: set<nat>) returns (i: nat)
    requires rest <= Indices(|m.buttons|) && x != m.desired
    requires Xor(x, XorOf(m.buttons, rest)) == m.desired
    requires ReachIn(m, x, k)
    ensures i < |m.buttons| && i in rest && |rest - {i}| < |rest|
    ensures rest - {i} <= Indices(|m.buttons|)
    ensures Xor(Flip(m.buttons[i], x), XorOf(m.buttons, rest - {i})) == m.desired
    ensures ReachIn(m, Flip(m.buttons[i], x), k + 1)
  {
    var bs := m.buttons;
    PickWrongButton(bs, x, rest, m.desired);
    i :| 0 <= i < |bs| && i in rest && FlipsAny(bs[i], Xor(x, m.desired));
    assert Step(m, x, i, Flip(bs[i], x));
    StepReach(m, x, i, Flip(bs[i], x), k);
    RestStep(bs, x, rest, i, m.desired);
  }

  /** The depth at which the search first meets the target is the fewest
      distinct buttons that light it. */
  lemma FirstIsFewest(m: Machine, d: nat)
    requires ReachIn(m, m.desired, d)
    requires forall k: nat :: k < d ==> !ReachIn(m, m.desired, k)
    ensures Fewest(m, d)
  {
    ParityWitness(m, m.desired, d);
    var p :| p <= Indices(|m.buttons|) && |p| <= d && XorOf(m.buttons, p) == m.desired;
    forall p' | Reaches(m, p')
      ensures d <= |p'|
    {
      assert ReachIn(m, {}, 0);
      XorEmpty(XorOf(m.buttons, p'));
      RouteFrom(m, {}, 0, p');
      var j: nat :| 0 <= j <= |p'| && ReachIn(m, m.desired, j);
    }
    assert Reaches(m, p);
  }

  /** Every button of a machine lights only positions below n. */
  predicate Below(b: Bits, n: nat) { forall e :: e in b ==> e < n }

  /** The masks whose bits all lie below n. */
  ghost function MasksBelow(n: nat): (r: set<Bits>)
  {
    if n == 0 then {{}}
    else
      var p := MasksBelow(n - 1);
      p + set s | s in p :: s + {n - 1}
  }

  lemma {:induction false} MasksBelowHas(n: nat, s: Bits)
    requires Below(s, n)
    ensures s in MasksBelow(n)
  {
    if n == 0 {
      assert s == {};
    } else if n - 1 in s {
      MasksBelowHas(n - 1, s - {n - 1});
      assert s == (s - {n - 1}) + {n - 1};
    } else {
      MasksBelowHas(n - 1, s);
    }
  }

  lemma {:induction false} SetBound(s: Bits)
    ensures exists n: nat :: Below(s, n)
    decreases |s|
  {
    if s == {} {
      assert Below(s, 0);
    } else {
      var e :| e in s;
      SetBound(s - {e});
      var n: nat :| Below(s - {e}, n);
      var n' := if n < e + 1 then e + 1 else n;
      forall e' | e' in s ensures e' < n' {
        if e' != e {
          assert e' in s - {e};
        }
      }
      assert Below(s, n');
    }
  }

  /** Every button lights only positions below n. */
  predicate AllBelow(bs: seq<Bits>, n: nat) { forall i :: 0 <= i < |bs| ==> Below(bs[i], n) }

  lemma {:induction false} ButtonsBound(bs: seq<Bits>)
    ensures exists n: nat :: AllBelow(bs, n)
  {
    if bs == [] {
      assert AllBelow(bs, 0);
    } else {
      var bs' := bs[..|bs| - 1];
      ButtonsBound(bs');
      var n: nat :| AllBelow(bs', n);
      SetBound(bs[|bs| - 1]);
      var k: nat :| Below(bs[|bs| - 1], k);
      var n' := if n < k then k else n;
      forall i | 0 <= i < |bs| ensures Below(bs[i], n') {
        if i < |bs| - 1 {
          assert bs'[i] == bs[i];
        }
      }
      assert AllBelow(bs, n');
    }
  }

  // ---------------------------------------------------------------- the search

  /** All of pattern x's worth-pressing successors have been seen. */
  ghost predicate Closed(m: Machine, seen: set<Bits>, x: Bits)
  {
    forall i :: 0 <= i < |m.buttons| ==> Followed(m, seen, x, i)
  }

  /** If button i is worth pressing from x, its pattern has been seen. */
  ghost predicate Followed(m: Machine, seen: set<Bits>, x: Bits, i: nat)
    requires i < |m.buttons|
  {
    FlipsAny(m.buttons[i], Xor(x, m.desired)) ==> Flip(m.buttons[i], x) in seen
  }

  predicate Visited(seen: set<Bits>, x: Bits) { x in seen }

  predicate Queued(q: seq<LightState>, x: Bits)
  {
    exists j :: 0 <= j < |q| && q[j].current == x
  }

  /** The queue of the search: every entry is reached at exactly its depth,
      the depths run from lo to at most lo + 1 in order, and every entry has
      been seen. */
  ghost predicate Layered(m: Machine, q: seq<LightState>, seen: set<Bits>, lo: nat)
  {
    && (forall j :: 0 <= j < |q| ==> ReachIn(m, q[j].current, q[j].depth) && q[j].current in seen)
    && (forall j :: 0 <= j < |q| ==> lo <= q[j].depth <= lo + 1)
    && (forall j, j' :: 0 <= j < j' < |q| ==> q[j].depth <= q[j'].depth)
    && (forall j, k: nat :: 0 <= j < |q| && k < q[j].depth ==> !ReachIn(m, q[j].current, k))
  }

  /** What has been seen: everything reachable within lo presses, and each
      pattern is queued or has all its successors seen and is not the
      target. */
  ghost predicate Explored(m: Machine, q: seq<LightState>, seen: set<Bits>, lo: nat)
  {
    && (forall x, k: nat :: k <= lo && ReachIn(m, x, k) ==> x in seen)
    && (forall x :: Visited(seen, x) ==> Queued(q, x) || (Closed(m, seen, x) && x != m.desired))
  }

  /** The patterns in the order they were queued, each once. */
  ghost predicate Enqueued(seen: set<Bits>, order: seq<Bits>)
  {
    && (forall x :: x in seen <==> x in order)
    && (forall j, j' :: 0 <= j < j' < |order| ==> order[j] != order[j'])
  }

  /** The last press of a route of k > 0 presses. */
  lemma LastPress(m: Machine, x: Bits, k: nat) returns (i: nat)
    requires k > 0 && ReachIn(m, x, k)
    ensures ReachedBy(m, x, i, k)
  {
    i :| ReachedBy(m, x, i, k);
  }

  /** When the queue's front is one press deeper than lo, every pattern at
      distance lo has been expanded, so everything within lo + 1 presses has
      been seen. */
  lemma Advance(m: Machine, q: seq<LightState>, seen: set<Bits>, lo: nat)
    requires Layered(m, q, seen, lo) && Explored(m, q, seen, lo)
    requires q != [] && q[0].depth == lo + 1
    ensures Layered(m, q, seen, lo + 1) && Explored(m, q, seen, lo + 1)
  {
    forall x, k: nat | k <= lo + 1 && ReachIn(m, x, k)
      ensures x in seen
    {
      if k == lo + 1 {
        var i := LastPress(m, x, k);
        var y := Flip(m.buttons[i], x);
        assert Visited(seen, y);
        forall j | 0 <= j < |q|
          ensures q[j].current != y
        {
          assert q[0].depth <= q[j].depth;
          assert !ReachIn(m, q[j].current, lo);
        }
        assert !Queued(q, y);
        assert Followed(m, seen, y, i);
        FlipTwice(m.buttons[i], x);
      }
    }
  }

  /** The patterns of some states, in order. */
  function Currents(s: seq<LightState>): (r: seq<Bits>)
    ensures |r| == |s| && forall j :: 0 <= j < |s| ==> r[j] == s[j].current
  {
    if s == [] then [] else Currents(s[..|s| - 1]) + [s[|s| - 1].current]
  }

  /** The patterns of some states. */
  function CurrentSet(s: seq<LightState>): set<Bits>
  {
    set j | 0 <= j < |s| :: s[j].current
  }

  lemma CurrentSetSnoc(s: seq<LightState>, t: LightState)
    ensures CurrentSet(s + [t]) == CurrentSet(s) + {t.current}
  {
    assert forall j :: 0 <= j < |s| ==> (s + [t])[j] == s[j];
    assert (s + [t])[|s|] == t;
  }

  /** The states queued by one expansion: one press beyond `cur`, each by
      the button recorded in `via`, each new and all different. */
  ghost predicate Fresh(m: Machine, cur: LightState, seen0: set<Bits>, added: seq<LightState>, via: seq<nat>)
  {
    && |via| == |added|
    && (forall j :: 0 <= j < |added| ==>
          added[j].depth == cur.depth + 1 && added[j].current !in seen0 && Step(m, cur.current, via[j], added[j].current))
    && (forall j, j' :: 0 <= j < j' < |added| ==> added[j].current != added[j'].current)
  }

  /** The loop over the buttons of `bruteNumPressesPart1`: every button
      worth pressing from `cur` whose pattern is new is queued at one more
      press and marked seen. */
  method Expand(m: Machine, cur: LightState, q0: seq<LightState>, seen0: set<Bits>)
    returns (q: seq<LightState>, seen: set<Bits>, ghost added: seq<LightState>, ghost via: seq<nat>)
    ensures q == q0 + added && seen == seen0 + CurrentSet(added)
    ensures Fresh(m, cur, seen0, added, via)
    ensures Closed(m, seen, cur.current)
  {
    q, seen, added, via := q0, seen0, [], [];
    for i := 0 to |m.buttons|
      invariant q == q0 + added && seen == seen0 + CurrentSet(added)
      invariant Fresh(m, cur, seen0, added, via)
      invariant forall i' :: 0 <= i' < i ==> Followed(m, seen, cur.current, i')
    {
      var b := m.buttons[i];
      if WorthPressing(m, cur, b) {
        var s := Press(cur, b);
        if s.current !in seen {
          ghost var seen1 := seen;
          CurrentSetSnoc(added, s);
          seen := seen + {s.current};
          q := q + [s];
          FreshSnoc(m, cur, seen0, seen1, added, via, s, i);
          added := added + [s];
          via := via + [i];
          forall i' | 0 <= i' < i
            ensures Followed(m, seen, cur.current, i')
          {
            assert Followed(m, seen1, cur.current, i');
          }
        }
      }
      assert Followed(m, seen, cur.current, i);
    }
  }

  lemma FreshSnoc(m: Machine, cur: LightState, seen0: set<Bits>, seen: set<Bits>,
                  added: seq<LightState>, via: seq<nat>, s: LightState, i: nat)
    requires Fresh(m, cur, seen0, added, via) && seen == seen0 + CurrentSet(added)
    requires i < |m.buttons| && WorthPressing(m, cur, m.buttons[i]) && s == Press(cur, m.buttons[i])
    requires s.current !in seen
    ensures Fresh(m, cur, seen0, added + [s], via + [i])
  {
    var a := added + [s];
    forall j, j' | 0 <= j < j' < |a|
      ensures a[j].current != a[j'].current
    {
      if j' == |added| {
        assert a[j].current in CurrentSet(added);
      }
    }
  }

  /** Every queued state is reached at one press more than `cur`. */
  lemma FreshReach(m: Machine, cur: LightState, seen0: set<Bits>, added: seq<LightState>, via: seq<nat>)
    requires Fresh(m, cur, seen0, added, via) && ReachIn(m, cur.current, cur.depth)
    ensures forall j :: 0 <= j < |added| ==> ReachIn(m, added[j].current, cur.depth + 1)
  {
    forall j | 0 <= j < |added|
      ensures ReachIn(m, added[j].current, cur.depth + 1)
    {
      StepReach(m, cur.current, via[j], added[j].current, cur.depth);
    }
  }

  /** Queuing the new states after `cur` has left the front keeps the queue
      layered. */
  lemma AfterExpandLayered(m: Machine, q: seq<LightState>, seen0: set<Bits>, seen: set<Bits>,
                           added: seq<LightState>, lo: nat)
    requires Layered(m, q, seen0, lo) && Explored(m, q, seen0, lo)
    requires q != [] && q[0].depth == lo
    requires seen == seen0 + CurrentSet(added)
    requires forall j :: 0 <= j < |added| ==> added[j].depth == lo + 1 && added[j].current !in seen0
    requires forall j :: 0 <= j < |added| ==> ReachIn(m, added[j].current, lo + 1)
    ensures Layered(m, q[1..] + added, seen, lo)
  {
    var q' := q[1..] + added;
    forall j | 0 <= j < |q'|
      ensures ReachIn(m, q'[j].current, q'[j].depth) && q'[j].current in seen
      ensures lo <= q'[j].depth <= lo + 1
    {
      if j < |q| - 1 {
        assert q'[j] == q[j + 1];
      } else {
        assert q'[j] == added[j - (|q| - 1)];
        assert q'[j].current in CurrentSet(added);
      }
    }
    forall j, k: nat | 0 <= j < |q'| && k < q'[j].depth
      ensures !ReachIn(m, q'[j].current, k)
    {
      if j < |q| - 1 {
        assert q'[j] == q[j + 1];
      } else {
        assert q'[j] == added[j - (|q| - 1)];
      }
    }
    forall j, j' | 0 <= j < j' < |q'|
      ensures q'[j].depth <= q'[j'].depth
    {
      if j' < |q| - 1 {
        assert q'[j] == q[j + 1] && q'[j'] == q[j' + 1];
      } else if j < |q| - 1 {
        assert q'[j] == q[j + 1] && q'[j'] == added[j' - (|q| - 1)];
      } else {
        assert q'[j] == added[j - (|q| - 1)] && q'[j'] == added[j' - (|q| - 1)];
      }
    }
  }

  /** One expansion of the front state keeps the queue layered. */
  lemma LayeredStep(m: Machine, q: seq<LightState>, seen0: set<Bits>, seen: set<Bits>,
                    added: seq<LightState>, via: seq<nat>, lo: nat)
    requires Layered(m, q, seen0, lo) && Explored(m, q, seen0, lo)
    requires q != [] && q[0].depth == lo
    requires seen == seen0 + CurrentSet(added) && Fresh(m, q[0], seen0, added, via)
    ensures Layered(m, q[1..] + added, seen, lo)
  {
    FreshReach(m, q[0], seen0, added, via);
    AfterExpandLayered(m, q, seen0, seen, added, lo);
  }

  /** Queuing the new states after `cur` has left the front, `cur` now
      expanded and not the target, keeps the seen set explored. */
  lemma AfterExpandExplored(m: Machine, q: seq<LightState>, seen0: set<Bits>, seen: set<Bits>,
                            added: seq<LightState>, lo: nat)
    requires Explored(m, q, seen0, lo)
    requires q != [] && q[0].current != m.desired
    requires seen == seen0 + CurrentSet(added)
    requires Closed(m, seen, q[0].current)
    ensures Explored(m, q[1..] + added, seen, lo)
  {
    var q' := q[1..] + added;
    forall x | Visited(seen, x)
      ensures Queued(q', x) || (Closed(m, seen, x) && x != m.desired)
    {
      if x in seen0 {
        assert Visited(seen0, x);
        if Queued(q, x) {
          var j :| 0 <= j < |q| && q[j].current == x;
          if j > 0 {
            assert q'[j - 1] == q[j];
          }
        } else {
          forall i | 0 <= i < |m.buttons|
            ensures Followed(m, seen, x, i)
          {
            assert Followed(m, seen0, x, i);
          }
        }
      } else {
        var j :| 0 <= j < |added| && added[j].current == x;
        assert q'[|q| - 1 + j] == added[j];
      }
    }
  }

  /** With nothing left in the queue every pattern the search reaches has
      been seen and expanded, and none is the target, so no combination of
      buttons lights it. */
  lemma EmptyUnsolvable(m: Machine, seen: set<Bits>, lo: nat)
    requires {} in seen && Explored(m, [], seen, lo)
    ensures !Solvable(m)
  {
    forall p | Reaches(m, p)
      ensures false
    {
      XorEmpty(XorOf(m.buttons, p));
      assert ReachIn(m, {}, 0);
      RouteFrom(m, {}, 0, p);
      var j: nat :| 0 <= j <= |p| && ReachIn(m, m.desired, j);
      ClosedReach(m, seen, lo, m.desired, j);
      assert Visited(seen, m.desired);
    }
  }

  lemma {:induction false} ClosedReach(m: Machine, seen: set<Bits>, lo: nat, x: Bits, k: nat)
    requires {} in seen && Explored(m, [], seen, lo) && ReachIn(m, x, k)
    ensures x in seen
    decreases k
  {
    if k > 0 {
      var i := LastPress(m, x, k);
      var y := Flip(m.buttons[i], x);
      ClosedReach(m, seen, lo, y, k - 1);
      assert Visited(seen, y) && !Queued([], y);
      assert Followed(m, seen, y, i);
      FlipTwice(m.buttons[i], x);
    }
  }

  lemma EnqueuedStep(seen0: set<Bits>, order: seq<Bits>, m: Machine, cur: LightState,
                     added: seq<LightState>, via: seq<nat>)
    requires Enqueued(seen0, order) && Fresh(m, cur, seen0, added, via)
    ensures Enqueued(seen0 + CurrentSet(added), order + Currents(added))
  {
    var o := order + Currents(added);
    forall j, j' | 0 <= j < j' < |o|
      ensures o[j] != o[j']
    {
      if j' >= |order| && j < |order| {
        assert o[j] in order;
        assert o[j'] == added[j' - |order|].current;
      } else if j >= |order| {
        assert o[j] == added[j - |order|].current && o[j'] == added[j' - |order|].current;
      }
    }
    forall x | x in CurrentSet(added) ensures x in o {
      var j :| 0 <= j < |added| && added[j].current == x;
      assert o[|order| + j] == x;
    }
    forall x | x in o && x !in order ensures x in CurrentSet(added) {
      var j :| 0 <= j < |o| && o[j] == x;
      assert x == added[j - |order|].current;
    }
  }

  lemma SubsetShrinks(all: set<Bits>, seen0: set<Bits>, seen: set<Bits>, x: Bits)
    requires seen0 <= seen <= all && x in seen && x !in seen0
    ensures |all - seen| < |all - seen0|
  {
    var d := all - seen0;
    assert all - seen <= d - {x};
    SubsetSize(all - seen, d - {x});
  }

  /** The patterns queued stay below n and so among the masks below n. */
  lemma FreshBelow(m: Machine, cur: LightState, seen0: set<Bits>, added: seq<LightState>, via: seq<nat>, n: nat)
    requires Fresh(m, cur, seen0, added, via) && AllBelow(m.buttons, n) && Below(cur.current, n)
    ensures forall j :: 0 <= j < |added| ==> Below(added[j].current, n)
    ensures CurrentSet(added) <= MasksBelow(n)
  {
    forall j | 0 <= j < |added|
      ensures Below(added[j].current, n)
    {
      assert Below(m.buttons[via[j]], n);
    }
    forall x | x in CurrentSet(added) ensures x in MasksBelow(n) {
      var j :| 0 <= j < |added| && added[j].current == x;
      MasksBelowHas(n, x);
    }
  }

  /** Dropping the front of a queue and appending states keeps every
      pattern below n when the appended ones are. */
  lemma QueueBelow(q: seq<LightState>, added: seq<LightState>, n: nat)
    requires q != [] && forall j :: 0 <= j < |q| ==> Below(q[j].current, n)
    requires forall j :: 0 <= j < |added| ==> Below(added[j].current, n)
    ensures forall j :: 0 <= j < |q[1..] + added| ==> Below((q[1..] + added)[j].current, n)
  {
    forall j | 0 <= j < |q[1..] + added| ensures Below((q[1..] + added)[j].current, n) {
      if j < |q| - 1 {
        assert (q[1..] + added)[j] == q[j + 1];
      } else {
        assert (q[1..] + added)[j] == added[j - (|q| - 1)];
      }
    }
  }

  /** Adding only unseen patterns leaves the seen set as it was only when
      none were added. */
  lemma NothingNew(seen: set<Bits>, added: seq<LightState>)
    requires forall j :: 0 <= j < |added| ==> added[j].current !in seen
    ensures seen + CurrentSet(added) == seen ==> added == []
  {
    if added != [] {
      assert added[0].current in CurrentSet(added);
    }
  }

  /** The state of `bruteNumPressesPart1` between two passes of its loop:
      the queue layered at lo, the seen set explored, the order of queuing,
      and every pattern below n. */
  ghost predicate Searching(m: Machine, q: seq<LightState>, seen: set<Bits>, order: seq<Bits>, lo: nat, n: nat)
  {
    && Layered(m, q, seen, lo) && Explored(m, q, seen, lo)
    && Enqueued(seen, order) && |order| > 0 && order[0] == {}
    && {} in seen && seen <= MasksBelow(n) && AllBelow(m.buttons, n)
    && (forall j :: 0 <= j < |q| ==> Below(q[j].current, n))
  }

  /** One pass of the loop of `bruteNumPressesPart1` that does not stop:
      the front state, one press short of the target or more, leaves the
      queue and its new successors join it. */
  method Visit(m: Machine, q: seq<LightState>, seen: set<Bits>, ghost order: seq<Bits>, ghost lo: nat, ghost n: nat)
    returns (q': seq<LightState>, seen': set<Bits>, ghost order': seq<Bits>)
    requires Searching(m, q, seen, order, lo, n)
    requires q != [] && q[0].depth == lo && q[0].current != m.desired
    ensures Searching(m, q', seen', order', lo, n)
    ensures seen <= seen'
    ensures seen' == seen ==> |q'| < |q|
  {
    var cur := q[0];
    ghost var added, via;
    q', seen', added, via := Expand(m, cur, q[1..], seen);
    order' := order + Currents(added);
    LayeredStep(m, q, seen, seen', added, via, lo);
    AfterExpandExplored(m, q, seen, seen', added, lo);
    EnqueuedStep(seen, order, m, cur, added, via);
    FreshBelow(m, cur, seen, added, via, n);
    QueueBelow(q, added, n);
    NothingNew(seen, added);
  }

  /** `bruteNumPressesPart1`: a breadth-first search from no lights that
      presses only buttons toggling a wrong light and queues each new
      pattern once; the depth of the first state showing the pattern is the
      fewest distinct buttons that light it, and an emptied queue, fatal
      in the source, happens exactly when no combination lights it. The
      patterns are queued in the order of `order`, none twice. */
  method NumPressesPart1(m: Machine) returns (r: Result<nat>, ghost order: seq<Bits>)
    ensures r.Ok? ==> Fewest(m, r.value)
    ensures r.Err? <==> !Solvable(m)
    ensures r.Err? ==> r.msg == "Queue empty!"
    ensures |order| > 0 && order[0] == {}
    ensures forall j, j' :: 0 <= j < j' < |order| ==> order[j] != order[j']
  {
    ButtonsBound(m.buttons);
    ghost var n: nat :| AllBelow(m.buttons, n);
    var seen: set<Bits> := {{}};
    var q := [LightState(0, {})];
    order := [{}];
    ghost var lo: nat := 0;
    MasksBelowHas(n, {});
    assert Queued(q, {}) by {
      assert q[0].current == {};
    }
    assert Searching(m, q, seen, order, lo, n);
    while true
      invariant Searching(m, q, seen, order, lo, n)
      decreases |MasksBelow(n) - seen|, |q|
    {
      if |q| == 0 {
        EmptyUnsolvable(m, seen, lo);
        return Err("Queue empty!"), order;
      }
      var cur := q[0];
      if cur.depth == lo + 1 {
        Advance(m, q, seen, lo);
        lo := lo + 1;
      }
      if Lit(m, cur) {
        FirstIsFewest(m, cur.depth);
        return Ok(cur.depth), order;
      }
      var q', seen';
      q', seen', order := Visit(m, q, seen, order, lo, n);
      if seen' != seen {
        var x :| x in seen' && x !in seen;
        SubsetShrinks(MasksBelow(n), seen, seen', x);
      }
      q, seen := q', seen';
    }
  }

  // ---------------------------------------------------------------- parts

  /** The parsing loop of `brutePart1` and `brutePart2`, stopping at the
      first failure. */
  method BruteParseMachines(lines: seq<string>) returns (r: Result<seq<Machine>>)
    ensures r.Err? <==> exists k :: 0 <= k < |lines| && MachineOf(lines[k]).Err?
    ensures r.Ok? ==> MachinesOf(lines, r.value)
  {
    var machines: seq<Machine> := [];
    for k := 0 to |lines|
      invariant |machines| == k
      invariant forall k' :: 0 <= k' < k ==> MachineOf(lines[k']) == Ok(machines[k'])
    {
      var m := BruteParseMachine(lines[k]);
      if m.Err? {
        return Err(m.msg);
      }
      machines := machines + [m.value.machine];
    }
    r := Ok(machines);
  }

  /** `brutePart1`: the fewest presses of every machine, summed. It fails
      exactly when a line does not parse or a machine's pattern cannot be
      lit. */
  method BrutePart1(lines: seq<string>) returns (r: Result<int>)
    ensures r.Err? <==> exists k :: 0 <= k < |lines| && (MachineOf(lines[k]).Err? || !Solvable(MachineOf(lines[k]).value))
    ensures r.Ok? ==> exists ms, counts: seq<nat> :: MachinesOf(lines, ms) && FewestAll(ms, counts) && r.value == Sum(counts)
  {
    var parsed := BruteParseMachines(lines);
    if parsed.Err? {
      return Err(parsed.msg);
    }
    var ms := parsed.value;
    r := BruteSumPresses(ms);
    if r.Err? {
      ghost var k :| 0 <= k < |ms| && !Solvable(ms[k]);
      assert MachineOf(lines[k]) == Ok(ms[k]);
    } else {
      forall k | 0 <= k < |lines|
        ensures MachineOf(lines[k]).Ok? && Solvable(MachineOf(lines[k]).value)
      {
        assert MachineOf(lines[k]) == Ok(ms[k]);
      }
    }
  }

  /** The summing loop of `brutePart1`: it fails exactly when some pattern
      cannot be lit. */
  method BruteSumPresses(ms: seq<Machine>) returns (r: Result<int>)
    ensures r.Err? <==> exists k :: 0 <= k < |ms| && !Solvable(ms[k])
    ensures r.Ok? ==> exists counts: seq<nat> :: FewestAll(ms, counts) && r.value == Sum(counts)
  {
    var sum := 0;
    ghost var counts: seq<nat> := [];
    for k := 0 to |ms|
      invariant |counts| == k
      invariant forall k' :: 0 <= k' < k ==> Fewest(ms[k'], counts[k'])
      invariant sum == Sum(counts)
    {
      var x, _ := NumPressesPart1(ms[k]);
      if x.Err? {
        return Err(x.msg);
      }
      FewestSnoc(ms, counts, x.value);
      counts := counts + [x.value];
      sum := sum + x.value;
    }
    FewestAllSolvable(ms, counts);
    r := Ok(sum);
  }

  lemma FewestSnoc(ms: seq<Machine>, counts: seq<nat>, x: nat)
    requires |counts| < |ms| && Fewest(ms[|counts|], x)
    requires forall k :: 0 <= k < |counts| ==> Fewest(ms[k], counts[k])
    ensures forall k :: 0 <= k < |counts| + 1 ==> Fewest(ms[k], (counts + [x])[k])
    ensures Sum(counts + [x]) == Sum(counts) + x
  {
    assert (counts + [x])[..|counts|] == counts;
  }

  /** A machine with a fewest count can be lit. */
  lemma FewestAllSolvable(ms: seq<Machine>, counts: seq<nat>)
    requires |counts| == |ms| && forall k :: 0 <= k < |ms| ==> Fewest(ms[k], counts[k])
    ensures FewestAll(ms, counts) && forall k :: 0 <= k < |ms| ==> Solvable(ms[k])
  {
  }

}
