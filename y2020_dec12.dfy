/** 2020 day 12, first part: a ship follows N/S/E/W/L/R/F instructions
    from the origin, heading east. */
module Y2020Dec12 {
  import opened Common
  import opened Modular

  /** One parsed instruction: the operation letter and its number. */
  datatype Instr = Instr(op: char, value: int)

  /** The heading, a letter of the counterclockwise cycle N, W, S, E, and
      the position. */
  datatype Ship = Ship(heading: char, x: int, y: int)

  const Cycle: string := "NWSE"

  predicate IsHeading(c: char) { c in Cycle }

  predicate Valid(s: Ship) { IsHeading(s.heading) }

  const Start := Ship('E', 0, 0)

  /** The `headings` table: E, W, N and S as unit vectors. */
  predicate IsDirection(c: char) { c == 'E' || c == 'W' || c == 'N' || c == 'S' }

  function Vector(c: char): (v: (int, int))
    requires IsDirection(c)
    ensures Abs(v.0) + Abs(v.1) == 1
  {
    match c
    case 'E' => (1, 0)
    case 'W' => (-1, 0)
    case 'N' => (0, 1)
    case 'S' => (0, -1)
  }

  /** `headingCycle.indexOf(heading)`. */
  function IndexOf(c: char): (i: nat)
    requires IsHeading(c)
    ensures i < 4 && Cycle[i] == c
  {
    if c == 'N' then 0 else if c == 'W' then 1 else if c == 'S' then 2 else 3
  }

  /** The heading after turning: `value * factor / 90` places along the
      cycle, truncated, then `floorMod` by 4. */
  function Turn(heading: char, steps: int): (h: char)
    requires IsHeading(heading)
    ensures IsHeading(h)
  {
    Cycle[FloorMod(IndexOf(heading) + steps, 4)]
  }

  function Move(s: Ship, v: (int, int), value: int): Ship
  {
    Ship(s.heading, s.x + v.0 * value, s.y + v.1 * value)
  }

  /** One instruction; an operation outside the seven is `None`. */
  function Step(s: Ship, i: Instr): Option<Ship>
    requires Valid(s)
  {
    if IsDirection(i.op) then Some(Move(s, Vector(i.op), i.value))
    else if i.op == 'F' then Some(Move(s, Vector(s.heading), i.value))
    else if i.op == 'L' || i.op == 'R' then
      var factor := if i.op == 'R' then -1 else 1;
      Some(Ship(Turn(s.heading, TDiv(i.value * factor, 90)), s.x, s.y))
    else None
  }

  predicate Known(i: Instr) { IsDirection(i.op) || i.op == 'F' || i.op == 'L' || i.op == 'R' }

  /** The state after a list of instructions, `None` once one is unknown. */
  function Run(s: Ship, instrs: seq<Instr>): (r: Option<Ship>)
    requires Valid(s)
    ensures r.Some? ==> Valid(r.value)
    decreases |instrs|
  {
    if instrs == [] then Some(s)
    else
      var last := instrs[|instrs| - 1];
      var prev := Run(s, instrs[..|instrs| - 1]);
      if prev.None? then None else Step(prev.value, last)
  }

  /** The run goes through exactly when every operation is known. */
  lemma {:induction false} RunDefined(s: Ship, instrs: seq<Instr>)
    requires Valid(s)
    ensures Run(s, instrs).Some? <==> forall k :: 0 <= k < |instrs| ==> Known(instrs[k])
    decreases |instrs|
  {
    if instrs != [] {
      var init := instrs[..|instrs| - 1];
      RunDefined(s, init);
      assert forall k :: 0 <= k < |init| ==> init[k] == instrs[k];
    }
  }

  function Manhattan(s: Ship): nat { Abs(s.x) + Abs(s.y) }

  /** Part1: apply the instructions in order; an unknown one throws; the
      answer is |x| + |y| of the final position. */
  method Part1(instrs: seq<Instr>) returns (r: Result<int>)
    ensures r.Ok? <==> forall k :: 0 <= k < |instrs| ==> Known(instrs[k])
    ensures r.Ok? ==> Run(Start, instrs).Some? && r.value == Manhattan(Run(Start, instrs).value)
  {
    var heading := 'E';
    var x, y := 0, 0;
    var k := 0;
    while k < |instrs|
      invariant 0 <= k <= |instrs|
      invariant Run(Start, instrs[..k]) == Some(Ship(heading, x, y))
    {
      var op, value := instrs[k].op, instrs[k].value;
      assert instrs[..k + 1][..k] == instrs[..k];
      if IsDirection(op) {
        var v := Vector(op);
        x, y := x + v.0 * value, y + v.1 * value;
      } else if op == 'F' {
        var v := Vector(heading);
        x, y := x + v.0 * value, y + v.1 * value;
      } else if op == 'L' || op == 'R' {
        var factor := if op == 'R' then -1 else 1;
        heading := Cycle[FloorMod(IndexOf(heading) + TDiv(value * factor, 90), 4)];
      } else {
        assert !Known(instrs[k]);
        return Err("Unknown operation");
      }
      k := k + 1;
    }
    assert instrs[..k] == instrs;
    RunDefined(Start, instrs);
    r := Ok(Abs(x) + Abs(y));
  }

  /** N/S/E/W move by the direction's vector whatever the heading, and
      F by the heading's vector; neither turns the ship. */
  lemma MoveMeaning(s: Ship, i: Instr)
    requires Valid(s) && (IsDirection(i.op) || i.op == 'F')
    ensures Step(s, i).Some? && Step(s, i).value.heading == s.heading
    ensures var v := if i.op == 'F' then Vector(s.heading) else Vector(i.op);
      Step(s, i).value.x == s.x + v.0 * i.value && Step(s, i).value.y == s.y + v.1 * i.value
  {
  }

  /** Turns leave the position alone, and L v followed by R v restores the
      heading (the truncated division is odd, so this holds for every v). */
  lemma TurnBack(s: Ship, v: int)
    requires Valid(s)
    ensures Step(s, Instr('L', v)).Some?
    ensures var t := Step(s, Instr('L', v)).value;
      t.x == s.x && t.y == s.y && Step(t, Instr('R', v)) == Some(s)
  {
    var q := TDiv(v, 90);
    assert TDiv(v * -1, 90) == -q;
    var i := IndexOf(s.heading);
    var j := FloorMod(i + q, 4);
    assert IndexOf(Cycle[j]) == j;
    assert j == (i + q) % 4;
    ModUnique(i, 4, 0, i);
    AddMultiple(j - q, (i + q) / 4, 4);
    assert j - q + ((i + q) / 4) * 4 == i;
  }

  /** Four right angles in one turn is a full circle. */
  lemma FullTurn(s: Ship)
    requires Valid(s)
    ensures Step(s, Instr('L', 360)) == Some(s) && Step(s, Instr('R', 360)) == Some(s)
  {
    assert TDiv(360, 90) == 4 && TDiv(-360, 90) == -4;
    var i: int := IndexOf(s.heading);
    assert FloorMod(i + 4, 4) == i && FloorMod(i - 4, 4) == i;
  }

  /** Running two lists is running their concatenation. */
  lemma {:induction false} RunAppend(s: Ship, a: seq<Instr>, b: seq<Instr>)
    requires Valid(s) && Run(s, a).Some?
    ensures Run(s, a + b) == Run(Run(s, a).value, b)
    decreases |b|
  {
    if b == [] {
      assert a + b == a;
    } else {
      assert (a + b)[..|a + b| - 1] == a + b[..|b| - 1];
      RunAppend(s, a, b[..|b| - 1]);
    }
  }

  /** One more instruction is one more step. */
  lemma RunStep(s: Ship, p: seq<Instr>, n: nat)
    requires Valid(s) && n < |p|
    ensures Run(s, p[..n + 1]) == if Run(s, p[..n]).None? then None else Step(Run(s, p[..n]).value, p[n])
  {
    assert p[..n + 1][..n] == p[..n];
  }

  /** The puzzle's example F10 N3 F7 R90 F11 ends 25 from the start. */
  lemma Example()
    ensures Run(Start, [Instr('F', 10), Instr('N', 3), Instr('F', 7), Instr('R', 90), Instr('F', 11)])
      == Some(Ship('S', 17, -8))
  {
    var p := [Instr('F', 10), Instr('N', 3), Instr('F', 7), Instr('R', 90), Instr('F', 11)];
    assert p[..0] == [];
    RunStep(Start, p, 0);
    assert Run(Start, p[..1]) == Some(Ship('E', 10, 0));
    RunStep(Start, p, 1);
    assert Run(Start, p[..2]) == Some(Ship('E', 10, 3));
    RunStep(Start, p, 2);
    assert Run(Start, p[..3]) == Some(Ship('E', 17, 3));
    RunStep(Start, p, 3);
    assert TDiv(90 * -1, 90) == -1 && FloorMod(3 + -1, 4) == 2;
    assert Run(Start, p[..4]) == Some(Ship('S', 17, 3));
    RunStep(Start, p, 4);
    assert p[..5] == p;
  }
}
