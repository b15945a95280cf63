/** 2020 day 8: a three-instruction machine (acc, jmp, nop), its loop
    detector, and the search for the one jmp/nop swap that makes the program
    run off its end. */
module Y2020Dec08 {
  import opened Common

  datatype Instruction = Acc(value: int) | Jmp(value: int) | Nop(value: int)

  function Name(i: Instruction): string
  {
    match i
    case Acc(_) => "acc"
    case Jmp(_) => "jmp"
    case Nop(_) => "nop"
  }

  /** `Instruction.parse`: the first two space-separated pieces are the name
      and the signed value (further pieces are ignored by the destructuring);
      fewer than two pieces, an unknown name or a bad number throw. */
  function Parse(inst: string): (r: Result<Instruction>)
    ensures r.Ok? ==> |SplitOn(inst, ' ')| >= 2 && SplitOn(inst, ' ')[0] == Name(r.value)
    ensures r.Ok? ==> ParseInt(SplitOn(inst, ' ')[1]) == Some(r.value.value)
    ensures |SplitOn(inst, ' ')| >= 2 && SplitOn(inst, ' ')[0] !in {"acc", "jmp", "nop"} ==> r.Err?
  {
    var pieces := SplitOn(inst, ' ');
    if |pieces| < 2 then Err("Index out of bounds")
    else if pieces[0] !in {"acc", "jmp", "nop"} then Err("Unknown instruction " + inst)
    else match ParseInt(pieces[1])
      case None => Err("Number format")
      case Some(v) =>
        Ok(if pieces[0] == "acc" then Acc(v) else if pieces[0] == "jmp" then Jmp(v) else Nop(v))
  }

  /** The instruction's text form, "name value". */
  function Show(i: Instruction): string
  {
    Name(i) + " " + IntString(i.value)
  }

  lemma NoSpaceInIntString(v: int)
    ensures ' ' !in IntString(v)
  {
    if v < 0 {
      NatStringValue(-v);
      var d := NatString(-v);
      assert IntString(v) == ['-'] + d;
      assert forall k :: 0 <= k < |d| ==> IsDigit(d[k]);
    } else {
      NatStringValue(v);
      var d := NatString(v);
      assert forall k :: 0 <= k < |d| ==> IsDigit(d[k]);
    }
  }

  /** Parsing reads back every instruction's text form. */
  lemma ParseShow(i: Instruction)
    ensures Parse(Show(i)) == Ok(i)
  {
    var n, v := Name(i), IntString(i.value);
    NoSpaceInIntString(i.value);
    assert ' ' !in n;
    SplitAppendSep(n, v, ' ');
    SplitNoSep(v, ' ');
    assert Show(i) == n + [' '] + v;
    assert SplitOn(Show(i), ' ') == [n, v];
    ParseIntString(i.value);
  }

  /** The pc after executing one instruction. */
  function Next(inst: Instruction, pc: int): int
  {
    match inst
    case Acc(_) => pc + 1
    case Jmp(v) => pc + v
    case Nop(_) => pc + 1
  }

  /** The accumulator after executing one instruction. */
  function AccAfter(inst: Instruction, acc: int): int
  {
    if inst.Acc? then acc + inst.value else acc
  }

  /** The pcs inside a program of n instructions. */
  function Range(n: int): (r: set<int>)
    ensures forall i :: i in r <==> 0 <= i < n
  {
    if n <= 0 then {} else Range(n - 1) + {n - 1}
  }

  lemma RangeShrinks(n: int, seen: set<int>, pc: int)
    requires 0 <= pc < n && pc !in seen
    ensures |Range(n) - (seen + {pc})| < |Range(n) - seen|
  {
    assert Range(n) - (seen + {pc}) == (Range(n) - seen) - {pc};
  }

  // ---------------------------------------------------------------------
  // Part1

  /** What Part1's loop computes from a state: the accumulator as soon as a
      pc comes round again; a pc outside the program throws. */
  function Part1From(prog: seq<Instruction>, pc: int, acc: int, seen: set<int>): Result<int>
    decreases |Range(|prog|) - seen|
  {
    if pc in seen then Ok(acc)
    else if !(0 <= pc < |prog|) then Err("Index out of bounds")
    else
      RangeShrinks(|prog|, seen, pc);
      Part1From(prog, Next(prog[pc], pc), AccAfter(prog[pc], acc), seen + {pc})
  }

  /** Part1: run until a pc would be executed a second time. */
  method Part1(prog: seq<Instruction>) returns (r: Result<int>)
    ensures r == Part1From(prog, 0, 0, {})
  {
    var acc, pc := 0, 0;
    var seen: set<int> := {};
    while pc !in seen
      invariant Part1From(prog, pc, acc, seen) == Part1From(prog, 0, 0, {})
      decreases |Range(|prog|) - seen|
    {
      if !(0 <= pc < |prog|) {
        return Err("Index out of bounds");
      }
      RangeShrinks(|prog|, seen, pc);
      seen := seen + {pc};
      var inst := prog[pc];
      acc, pc := AccAfter(inst, acc), Next(inst, pc);
    }
    r := Ok(acc);
  }

  // ---------------------------------------------------------------------
  // Part2

  /** A program with at most some overridden positions, as the sealed
      class `InstructionList`: `Base` wraps the parsed list, `Override`
      replaces one position of its delegate. */
  datatype InstructionList =
    | Base(list: seq<Instruction>)
    | Override(delegate: InstructionList, position: int, replace: Instruction)

  function Size(l: InstructionList): nat
  {
    match l
    case Base(list) => |list|
    case Override(d, _, _) => Size(d)
  }

  predicate AltUsed(l: InstructionList) { l.Override? }

  function Get(l: InstructionList, i: int): Result<Instruction>
  {
    match l
    case Base(list) => if 0 <= i < |list| then Ok(list[i]) else Err("Index out of bounds")
    case Override(d, p, r) => if i == p then Ok(r) else Get(d, i)
  }

  /** Every override replaces a position inside the program. */
  predicate WellFormed(l: InstructionList)
  {
    match l
    case Base(_) => true
    case Override(d, p, _) => WellFormed(d) && 0 <= p < Size(d)
  }

  /** The instructions the list stands for, as a plain sequence. */
  function Flat(l: InstructionList): (s: seq<Instruction>)
    requires WellFormed(l)
    ensures |s| == Size(l)
  {
    match l
    case Base(list) => list
    case Override(d, p, r) => Flat(d)[p := r]
  }

  /** `get` reads the flattened program: in range it is that position's
      instruction, outside it throws. */
  lemma {:induction false} GetIsFlat(l: InstructionList, i: int)
    requires WellFormed(l)
    ensures Get(l, i).Ok? <==> 0 <= i < Size(l)
    ensures Get(l, i).Ok? ==> Get(l, i).value == Flat(l)[i]
  {
    if l.Override? {
      GetIsFlat(l.delegate, i);
    }
  }

  /** The swap Part2 tries: jmp and nop trade places, acc has none. */
  function Swap(inst: Instruction): Option<Instruction>
  {
    match inst
    case Nop(v) => Some(Jmp(v))
    case Jmp(v) => Some(Nop(v))
    case Acc(_) => None
  }

  /** Running a program as it is: the accumulator when pc reaches the end
      (Some), None when a pc in `seen` comes round again. */
  function Run(l: InstructionList, pc: int, acc: int, seen: set<int>): Result<Option<int>>
    requires WellFormed(l)
    decreases |Range(Size(l)) - seen|
  {
    if pc == Size(l) then Ok(Some(acc))
    else match Get(l, pc)
      case Err(m) => Err(m)
      case Ok(inst) =>
        if pc in seen then Ok(None)
        else
          GetIsFlat(l, pc);
          RangeShrinks(Size(l), seen, pc);
          Run(l, Next(inst, pc), AccAfter(inst, acc), seen + {pc})
  }

  /** What `recurse` returns: like Run, but when the rest of the run loops
      and no swap has been made yet, a jmp or nop at pc is swapped and the
      run is retried from pc. */
  function Recursion(l: InstructionList, pc: int, acc: int, seen: set<int>): Result<Option<int>>
    requires WellFormed(l)
    decreases if AltUsed(l) then 0 else 1, |Range(Size(l)) - seen|
  {
    if pc == Size(l) then Ok(Some(acc))
    else match Get(l, pc)
      case Err(m) => Err(m)
      case Ok(inst) =>
        if pc in seen then Ok(None)
        else
          GetIsFlat(l, pc);
          RangeShrinks(Size(l), seen, pc);
          var result := Recursion(l, Next(inst, pc), AccAfter(inst, acc), seen + {pc});
          if result == Ok(None) && !AltUsed(l) && Swap(inst).Some? then
            Recursion(Override(l, pc, Swap(inst).value), pc, AccAfter(inst, acc), seen)
          else result
  }

  /** Once a swap has been made, `recurse` only runs the program. */
  lemma {:induction false} AltUsedRuns(l: InstructionList, pc: int, acc: int, seen: set<int>)
    requires WellFormed(l) && AltUsed(l)
    ensures Recursion(l, pc, acc, seen) == Run(l, pc, acc, seen)
    decreases |Range(Size(l)) - seen|
  {
    if pc != Size(l) && Get(l, pc).Ok? && pc !in seen {
      var inst := Get(l, pc).value;
      GetIsFlat(l, pc);
      RangeShrinks(Size(l), seen, pc);
      AltUsedRuns(l, Next(inst, pc), AccAfter(inst, acc), seen + {pc});
    }
  }

  /** A value found by `recurse` on an unmodified program is the final
      accumulator of that program, or of the program with one jmp/nop at a
      position not in `seen` swapped, each run from pc. */
  lemma {:induction false} RecursionSound(l: InstructionList, pc: int, acc: int, seen: set<int>, v: int)
    requires WellFormed(l) && !AltUsed(l)
    requires Recursion(l, pc, acc, seen) == Ok(Some(v))
    ensures Run(l, pc, acc, seen) == Ok(Some(v)) ||
      exists p :: p !in seen && 0 <= p < Size(l) && Get(l, p).Ok? && Swap(Get(l, p).value).Some? &&
        Run(Override(l, p, Swap(Get(l, p).value).value), pc, acc, seen) == Ok(Some(v))
    decreases |Range(Size(l)) - seen|
  {
    if pc != Size(l) {
      var inst := Get(l, pc).value;
      GetIsFlat(l, pc);
      RangeShrinks(Size(l), seen, pc);
      var next, acc' := Next(inst, pc), AccAfter(inst, acc);
      var result := Recursion(l, next, acc', seen + {pc});
      if result == Ok(Some(v)) {
        RecursionSound(l, next, acc', seen + {pc}, v);
        if Run(l, next, acc', seen + {pc}) != Ok(Some(v)) {
          var p :| p !in seen + {pc} && 0 <= p < Size(l) && Get(l, p).Ok? && Swap(Get(l, p).value).Some? &&
            Run(Override(l, p, Swap(Get(l, p).value).value), next, acc', seen + {pc}) == Ok(Some(v));
          var o := Override(l, p, Swap(Get(l, p).value).value);
          assert Get(o, pc) == Get(l, pc);
          assert Run(o, pc, acc, seen) == Ok(Some(v));
        }
      } else {
        var o := Override(l, pc, Swap(inst).value);
        AltUsedRuns(o, pc, acc', seen);
        assert acc' == acc;
      }
    }
  }

  /** When `recurse` on an unmodified program finds no solution, the
      program loops from pc, and so does every variant with one jmp/nop
      swapped at a position not in `seen`. */
  lemma {:induction false} RecursionComplete(l: InstructionList, pc: int, acc: int, seen: set<int>, p: int)
    requires WellFormed(l) && !AltUsed(l)
    requires Recursion(l, pc, acc, seen) == Ok(None)
    requires p !in seen && 0 <= p < Size(l) && Get(l, p).Ok? && Swap(Get(l, p).value).Some?
    ensures Run(l, pc, acc, seen) == Ok(None)
    ensures Run(Override(l, p, Swap(Get(l, p).value).value), pc, acc, seen) == Ok(None)
    decreases |Range(Size(l)) - seen|
  {
    var o := Override(l, p, Swap(Get(l, p).value).value);
    var inst := Get(l, pc).value;
    if pc !in seen {
      GetIsFlat(l, pc);
      RangeShrinks(Size(l), seen, pc);
      var next, acc' := Next(inst, pc), AccAfter(inst, acc);
      assert Recursion(l, next, acc', seen + {pc}) == Ok(None);
      if p == pc {
        AltUsedRuns(o, pc, acc', seen);
        assert acc' == acc;
      } else {
        RecursionComplete(l, next, acc', seen + {pc}, p);
        assert Get(o, pc) == Get(l, pc);
      }
      RecursionCompleteRun(l, next, acc', seen + {pc});
    }
  }

  /** The first half of `RecursionComplete`, without a swap position. */
  lemma {:induction false} RecursionCompleteRun(l: InstructionList, pc: int, acc: int, seen: set<int>)
    requires WellFormed(l) && !AltUsed(l)
    requires Recursion(l, pc, acc, seen) == Ok(None)
    ensures Run(l, pc, acc, seen) == Ok(None)
    decreases |Range(Size(l)) - seen|
  {
    if pc !in seen {
      var inst := Get(l, pc).value;
      GetIsFlat(l, pc);
      RangeShrinks(Size(l), seen, pc);
      RecursionCompleteRun(l, Next(inst, pc), AccAfter(inst, acc), seen + {pc});
    }
  }

  /** Part2 is exact when it does not fail: it finds a value iff the
      program or one of its single jmp/nop swaps runs to the end. */
  lemma Part2Complete(list: seq<Instruction>, p: int)
    requires Recursion(Base(list), 0, 0, {}) == Ok(None)
    requires 0 <= p < |list| && Swap(list[p]).Some?
    ensures Run(Base(list), 0, 0, {}) == Ok(None)
    ensures Run(Override(Base(list), p, Swap(list[p]).value), 0, 0, {}) == Ok(None)
  {
    RecursionComplete(Base(list), 0, 0, {}, p);
  }

  /** For a run from pc with `seen` inside the program, Part1's loop
      stops normally exactly when the program as it is loops. */
  lemma {:induction false} Part1DetectsLoop(prog: seq<Instruction>, pc: int, acc: int, seen: set<int>)
    requires seen <= Range(|prog|)
    ensures Part1From(prog, pc, acc, seen).Ok? <==> Run(Base(prog), pc, acc, seen) == Ok(None)
    decreases |Range(|prog|) - seen|
  {
    if pc !in seen && 0 <= pc < |prog| {
      RangeShrinks(|prog|, seen, pc);
      Part1DetectsLoop(prog, Next(prog[pc], pc), AccAfter(prog[pc], acc), seen + {pc});
    } else if pc in seen {
      assert pc in Range(|prog|);
    }
  }

  /** The mutable set of pcs on the current path. */
  class PcSet {
    var pcs: set<int>

    constructor()
      ensures pcs == {}
    {
      pcs := {};
    }
  }

  /** `recurse`, pushing pc onto `seen` before the recursive call and
      popping it after; `seen` is back as it was whenever no exception
      escaped. */
  method Recurse(l: InstructionList, pc: int, accumulator: int, seen: PcSet) returns (r: Result<Option<int>>)
    requires WellFormed(l)
    modifies seen
    decreases if AltUsed(l) then 0 else 1, |Range(Size(l)) - seen.pcs|
    ensures r == Recursion(l, pc, accumulator, old(seen.pcs))
    ensures r.Ok? ==> seen.pcs == old(seen.pcs)
  {
    var acc := accumulator;
    if pc == Size(l) {
      return Ok(Some(acc));
    }
    var got := Get(l, pc);
    if got.Err? {
      return Err(got.msg);
    }
    var inst := got.value;
    if pc in seen.pcs {
      return Ok(None);
    }
    GetIsFlat(l, pc);
    RangeShrinks(Size(l), seen.pcs, pc);
    seen.pcs := seen.pcs + {pc};
    if inst.Acc? {
      acc := acc + inst.value;
    }
    var next := Next(inst, pc);
    var result := Recurse(l, next, acc, seen);
    if result.Err? {
      return result;
    }
    seen.pcs := seen.pcs - {pc};
    assert seen.pcs == old(seen.pcs);
    if result == Ok(None) && !AltUsed(l) {
      var swapped := Swap(inst);
      if swapped.Some? {
        result := Recurse(Override(l, pc, swapped.value), pc, acc, seen);
      }
    }
    r := result;
  }

  /** Part2: None stands for "no solution found". */
  method Part2(list: seq<Instruction>) returns (r: Result<Option<int>>)
    ensures r == Recursion(Base(list), 0, 0, {})
  {
    var seen := new PcSet();
    r := Recurse(Base(list), 0, 0, seen);
  }

  /** Part2's answer is the final accumulator of the program, or of the
      program with exactly one jmp/nop swapped, run from the start. */
  lemma Part2Sound(list: seq<Instruction>, v: int)
    requires Recursion(Base(list), 0, 0, {}) == Ok(Some(v))
    ensures Run(Base(list), 0, 0, {}) == Ok(Some(v)) ||
      exists p :: 0 <= p < |list| && Swap(list[p]).Some? &&
        Run(Override(Base(list), p, Swap(list[p]).value), 0, 0, {}) == Ok(Some(v))
  {
    RecursionSound(Base(list), 0, 0, {}, v);
  }

  /** The puzzle's worked example: Part1 stops with 5 in the accumulator. */
  lemma ExamplePart1()
    ensures Part1From([Nop(0), Acc(1), Jmp(4), Acc(3), Jmp(-3), Acc(-99), Acc(1), Jmp(-4), Acc(6)], 0, 0, {}) == Ok(5)
  {
    var ex := [Nop(0), Acc(1), Jmp(4), Acc(3), Jmp(-3), Acc(-99), Acc(1), Jmp(-4), Acc(6)];
    var s1 := {} + {0};
    var s2 := s1 + {1};
    var s3 := s2 + {2};
    var s4 := s3 + {6};
    var s5 := s4 + {7};
    var s6 := s5 + {3};
    var s7 := s6 + {4};
    assert Part1From(ex, 1, 5, s7) == Ok(5);
    assert Part1From(ex, 4, 5, s6) == Ok(5);
    assert Part1From(ex, 3, 2, s5) == Ok(5);
    assert Part1From(ex, 7, 2, s4) == Ok(5);
    assert Part1From(ex, 6, 1, s3) == Ok(5);
    assert Part1From(ex, 2, 1, s2) == Ok(5);
    assert Part1From(ex, 1, 0, s1) == Ok(5);
  }
}
