/** 2024 day 21: keypad conundrum. A code is typed on a numeric keypad by a
    robot arm that is driven from a directional keypad, which is itself
    driven from another one, and so on. The length of the shortest button
    sequence at the outermost pad is found level by level from tables of
    move sequences, with a cache of the lengths found. */
module Y2024Day21 {
  import opened Common

  // ---------------------------------------------------------------- pads

  /** The pads `newSolver` stacks: the numeric pad with the source's table,
      the same pad with three table entries corrected, and the directional
      pad. */
  datatype Pad = Numeric | NumericFixed | Directional

  /** `numpad`: for the key the arm is on and the key to press, the
      button sequences on the next pad that press it. */
  function NumericTable(from: char, to: char): seq<string>
  {
    match from
    case 'A' => (
      match to
      case '7' => ["^^^<<A", "<^^^<A"]
      case '8' => ["^^^<A", "<^^^A"]
      case '9' => ["^^^A"]
      case '4' => ["^^<<A"]
      case '5' => ["^^<A", "<^^A"]
      case '6' => ["^^A"]
      case '1' => ["^<<A"]
      case '2' => ["^<A", "^<A"]
      case '3' => ["^A"]
      case '0' => ["<A"]
      case 'A' => ["A"]
      case _ => [])
    case '0' => (
      match to
      case '7' => ["^^^<A", "^^^<A"]
      case '8' => ["^^^A"]
      case '9' => ["^^^>A", ">^^^A"]
      case '4' => ["^^<A"]
      case '5' => ["^^A"]
      case '6' => ["^^>A", ">^^A"]
      case '1' => ["^<A", "^<A"]
      case '2' => ["^A"]
      case '3' => ["^>A", ">^A"]
      case '0' => ["A"]
      case 'A' => [">A"]
      case _ => [])
    case '1' => (
      match to
      case '7' => ["^^A"]
      case '8' => ["^^>A", ">^^A"]
      case '9' => ["^^>>A", ">>^^A"]
      case '4' => ["^A"]
      case '5' => ["^>A", ">^A"]
      case '6' => ["^>>A", ">>^A"]
      case '1' => ["A"]
      case '2' => [">A"]
      case '3' => [">>A"]
      case '0' => [">vA"]
      case 'A' => [">>vA"]
      case _ => [])
    case '2' => (
      match to
      case '7' => ["^^<A", "<^^A"]
      case '8' => ["^^A"]
      case '9' => ["^^>A", ">^^A"]
      case '4' => ["^<A", "<^A"]
      case '5' => ["^A"]
      case '6' => ["^>A", ">^A"]
      case '1' => ["<A"]
      case '2' => ["A"]
      case '3' => [">A"]
      case '0' => ["vA"]
      case 'A' => [">vA", "v>A"]
      case _ => [])
    case '3' => (
      match to
      case '7' => ["^^<<A", "<<^^A"]
      case '8' => ["^^<A", "<^^A"]
      case '9' => ["^^A"]
      case '4' => ["^<<A", "<<^A"]
      case '5' => ["^<A", "<^A"]
      case '6' => ["^A"]
      case '1' => ["<<A"]
      case '2' => ["<A"]
      case '3' => ["A"]
      case '0' => ["<vA", "v<A"]
      case 'A' => ["vA"]
      case _ => [])
    case '4' => (
      match to
      case '7' => ["^A"]
      case '8' => ["^>A", ">^A"]
      case '9' => ["^>>A", ">>^A"]
      case '4' => ["A"]
      case '5' => [">A"]
      case '6' => [">>A"]
      case '1' => ["vA"]
      case '2' => [">vA", "v>A"]
      case '3' => [">>vA", "v>>A"]
      case '0' => [">vvA"]
      case 'A' => [">>vvA"]
      case _ => [])
    case '5' => (
      match to
      case '7' => ["^<A", ">^A"]
      case '8' => ["^A"]
      case '9' => ["^>A", "v^A"]
      case '4' => ["<A"]
      case '5' => ["A"]
      case '6' => [">A"]
      case '1' => ["<vA", "v<A"]
      case '2' => ["vA"]
      case '3' => [">vA", "v>A"]
      case '0' => ["vvA"]
      case 'A' => [">vvA", "vv>A"]
      case _ => [])
    case '6' => (
      match to
      case '7' => ["^<<A", "<<^A"]
      case '8' => ["^<A", "<^A"]
      case '9' => ["^A"]
      case '4' => ["<<A"]
      case '5' => ["<A"]
      case '6' => ["A"]
      case '1' => ["<<vA", "v<<A"]
      case '2' => ["<vA", "<vA"]
      case '3' => ["vA"]
      case '0' => ["<vvA", "vv<A"]
      case 'A' => ["vvA"]
      case _ => [])
    case '7' => (
      match to
      case '7' => ["A"]
      case '8' => [">A"]
      case '9' => [">>A"]
      case '4' => ["vA"]
      case '5' => [">vA", "v>A"]
      case '6' => [">>vA", "v>>A"]
      case '1' => ["vvA"]
      case '2' => [">vvA", "vv>A"]
      case '3' => [">>vvA", "vv>>A"]
      case '0' => [">vvvA"]
      case 'A' => [">>vvvA"]
      case _ => [])
    case '8' => (
      match to
      case '7' => ["<A"]
      case '8' => ["A"]
      case '9' => [">A"]
      case '4' => ["<vA", "v<A"]
      case '5' => ["vA"]
      case '6' => [">vA", "v>A"]
      case '1' => ["<vvA", "vv<A"]
      case '2' => ["vvA"]
      case '3' => [">vvA", "vvA"]
      case '0' => ["vvvA"]
      case 'A' => [">vvvA", "vvv>A"]
      case _ => [])
    case '9' => (
      match to
      case '7' => ["<<A"]
      case '8' => ["<A"]
      case '9' => ["A"]
      case '4' => ["<<vA", "v<<A"]
      case '5' => ["<vA", "v<A"]
      case '6' => ["vA"]
      case '1' => ["<<vvA", "vv<<A"]
      case '2' => ["<vvA", "vv<A"]
      case '3' => ["vvA"]
      case '0' => ["<vvvA", "vvv<A"]
      case 'A' => ["vvvA"]
      case _ => [])
    case _ => []
  }

  /** `dirpad`, in the same form. */
  function DirectionalTable(from: char, to: char): seq<string>
  {
    match from
    case 'A' => (
      match to
      case '^' => ["<A"]
      case 'A' => ["A"]
      case '<' => ["<v<A", "v<<A"]
      case 'v' => ["<vA", "v<A"]
      case '>' => ["vA"]
      case _ => [])
    case '^' => (
      match to
      case '^' => ["A"]
      case 'A' => [">A"]
      case '<' => ["v<A"]
      case 'v' => ["vA"]
      case '>' => ["v>A", ">vA"]
      case _ => [])
    case '<' => (
      match to
      case '^' => [">^A"]
      case 'A' => [">>^A", ">^>A"]
      case '<' => ["A"]
      case 'v' => [">A"]
      case '>' => [">>A"]
      case _ => [])
    case 'v' => (
      match to
      case '^' => ["^A"]
      case 'A' => [">^A", "^>A"]
      case '<' => ["<A"]
      case 'v' => ["A"]
      case '>' => [">A"]
      case _ => [])
    case '>' => (
      match to
      case '^' => ["^<A", "<^A"]
      case 'A' => ["^A"]
      case '<' => ["<<A"]
      case 'v' => ["<A"]
      case '>' => ["A"]
      case _ => [])
    case _ => []
  }

  /** The numeric table with its three entries that do not press the key
      they are listed for replaced by two that do. */
  function NumericFixedTable(from: char, to: char): seq<string>
  {
    if (from, to) == ('5', '7') then ["^<A", "<^A"]
    else if (from, to) == ('5', '9') then ["^>A", ">^A"]
    else if (from, to) == ('8', '3') then [">vvA", "vv>A"]
    else NumericTable(from, to)
  }

  /** Each sequence ends by pressing 'A'. */
  predicate EndInA(opts: seq<string>)
  {
    forall i :: 0 <= i < |opts| ==> |opts[i]| >= 1 && opts[i][|opts[i]| - 1] == 'A'
  }

  /** `p[cur][r]`: a key missing from the table is Go's nil slice. */
  function Options(p: Pad, from: char, to: char): seq<string>
  {
    match p
    case Numeric => NumericTable(from, to)
    case NumericFixed => NumericFixedTable(from, to)
    case Directional => DirectionalTable(from, to)
  }

  // ---------------------------------------------------------------- layout

  /** The cells of the pads: rows 789 / 456 / 123 / _0A on the numeric
      pad and _^A / <v> on the directional pad, with no key at _. */
  predicate OnKey(p: Pad, row: int, col: int)
  {
    if p == Directional then 0 <= row <= 1 && 0 <= col <= 2 && !(row == 0 && col == 0)
    else 0 <= row <= 3 && 0 <= col <= 2 && !(row == 3 && col == 0)
  }

  /** The cell of a key, when the pad has it. */
  function CellOf(p: Pad, c: char): (r: Option<(int, int)>)
    ensures r.Some? ==> OnKey(p, r.value.0, r.value.1)
  {
    if p == Directional then
      match c
      case '^' => Some((0, 1))
      case 'A' => Some((0, 2))
      case '<' => Some((1, 0))
      case 'v' => Some((1, 1))
      case '>' => Some((1, 2))
      case _ => None
    else
      match c
      case '7' => Some((0, 0)) case '8' => Some((0, 1)) case '9' => Some((0, 2))
      case '4' => Some((1, 0)) case '5' => Some((1, 1)) case '6' => Some((1, 2))
      case '1' => Some((2, 0)) case '2' => Some((2, 1)) case '3' => Some((2, 2))
      case '0' => Some((3, 1)) case 'A' => Some((3, 2))
      case _ => None
  }

  /** The cell p's arm presses when o[k..] is typed on the pad that drives
      p, with the arm on the given cell: each arrow moves the arm one cell,
      and the one 'A', at the end, presses the cell under it. An arrow that
      leaves the keys, an 'A' before the end or no 'A' at all is None. */
  function Pressed(p: Pad, row: int, col: int, o: string, k: nat): Option<(int, int)>
    decreases |o| - k
  {
    if k >= |o| then None
    else if o[k] == 'A' then (if k == |o| - 1 then Some((row, col)) else None)
    else
      var dr := if o[k] == '^' then -1 else if o[k] == 'v' then 1 else 0;
      var dc := if o[k] == '<' then -1 else if o[k] == '>' then 1 else 0;
      if (dr == 0 && dc == 0) || !OnKey(p, row + dr, col + dc) then None
      else Pressed(p, row + dr, col + dc, o, k + 1)
  }

  /** The sequence o moves p's arm from `from` to `to` over keys only and
      then presses it. */
  predicate Enters(p: Pad, from: char, to: char, o: string)
  {
    CellOf(p, from).Some? && CellOf(p, to).Some? &&
    Pressed(p, CellOf(p, from).value.0, CellOf(p, from).value.1, o, 0) == CellOf(p, to)
  }

  /** Each sequence of the list enters `to` from `from`. */
  predicate AllEnter(p: Pad, from: char, to: char, opts: seq<string>)
  {
    forall i :: 0 <= i < |opts| ==> Enters(p, from, to, opts[i])
  }

  /** Every sequence of `dirpad` presses the key it is listed for. */
  lemma DirectionalSound(from: char, to: char)
    ensures AllEnter(Directional, from, to, DirectionalTable(from, to))
  {
  }

  // The corrected numeric table, one key to start from at a time.

  lemma NumericFixedFrom7(to: char)
    ensures AllEnter(NumericFixed, '7', to, NumericFixedTable('7', to))
  {
  }

  lemma NumericFixedFrom8(to: char)
    ensures AllEnter(NumericFixed, '8', to, NumericFixedTable('8', to))
  {
  }

  lemma NumericFixedFrom9(to: char)
    ensures AllEnter(NumericFixed, '9', to, NumericFixedTable('9', to))
  {
  }

  lemma NumericFixedFrom4(to: char)
    ensures AllEnter(NumericFixed, '4', to, NumericFixedTable('4', to))
  {
  }

  lemma NumericFixedFrom5(to: char)
    ensures AllEnter(NumericFixed, '5', to, NumericFixedTable('5', to))
  {
  }

  lemma NumericFixedFrom6(to: char)
    ensures AllEnter(NumericFixed, '6', to, NumericFixedTable('6', to))
  {
  }

  lemma NumericFixedFrom1(to: char)
    ensures AllEnter(NumericFixed, '1', to, NumericFixedTable('1', to))
  {
  }

  lemma NumericFixedFrom2(to: char)
    ensures AllEnter(NumericFixed, '2', to, NumericFixedTable('2', to))
  {
  }

  lemma NumericFixedFrom3(to: char)
    ensures AllEnter(NumericFixed, '3', to, NumericFixedTable('3', to))
  {
  }

  lemma NumericFixedFrom0(to: char)
    ensures AllEnter(NumericFixed, '0', to, NumericFixedTable('0', to))
  {
  }

  lemma NumericFixedFromA(to: char)
    ensures AllEnter(NumericFixed, 'A', to, NumericFixedTable('A', to))
  {
  }

  /** Every sequence of the corrected numeric table presses the key it is
      listed for. */
  lemma NumericFixedSound(from: char, to: char)
    ensures AllEnter(NumericFixed, from, to, NumericFixedTable(from, to))
  {
    match from
    case '7' => NumericFixedFrom7(to);
    case '8' => NumericFixedFrom8(to);
    case '9' => NumericFixedFrom9(to);
    case '4' => NumericFixedFrom4(to);
    case '5' => NumericFixedFrom5(to);
    case '6' => NumericFixedFrom6(to);
    case '1' => NumericFixedFrom1(to);
    case '2' => NumericFixedFrom2(to);
    case '3' => NumericFixedFrom3(to);
    case '0' => NumericFixedFrom0(to);
    case 'A' => NumericFixedFromA(to);
    case _ =>
  }

  /** Three sequences of `numpad` press another key than the one they are
      listed for: from 5, ">^A" presses 9 instead of 7 and "v^A" presses 5
      instead of 9; from 8, "vvA" presses 2 instead of 3. */
  lemma NumericMisses()
    ensures ">^A" in NumericTable('5', '7') && Pressed(Numeric, 1, 1, ">^A", 0) == CellOf(Numeric, '9')
    ensures "v^A" in NumericTable('5', '9') && Pressed(Numeric, 1, 1, "v^A", 0) == CellOf(Numeric, '5')
    ensures "vvA" in NumericTable('8', '3') && Pressed(Numeric, 0, 1, "vvA", 0) == CellOf(Numeric, '2')
    ensures !Enters(Numeric, '5', '7', ">^A") && !Enters(Numeric, '5', '9', "v^A") && !Enters(Numeric, '8', '3', "vvA")
  {
  }

  /** A sequence that presses a cell ends with its only 'A'. */
  lemma {:induction false} PressedEndsInA(p: Pad, row: int, col: int, o: string, k: nat)
    requires Pressed(p, row, col, o, k).Some?
    ensures k < |o| && o[|o| - 1] == 'A'
    decreases |o| - k
  {
    if o[k] != 'A' {
      var dr := if o[k] == '^' then -1 else if o[k] == 'v' then 1 else 0;
      var dc := if o[k] == '<' then -1 else if o[k] == '>' then 1 else 0;
      PressedEndsInA(p, row + dr, col + dc, o, k + 1);
    }
  }

  /** A list of sequences that each press a key ends each in 'A'. */
  lemma AllEnterEndInA(p: Pad, from: char, to: char, opts: seq<string>)
    requires AllEnter(p, from, to, opts)
    ensures EndInA(opts)
  {
    forall i | 0 <= i < |opts| ensures |opts[i]| >= 1 && opts[i][|opts[i]| - 1] == 'A' {
      assert Enters(p, from, to, opts[i]);
      PressedEndsInA(p, CellOf(p, from).value.0, CellOf(p, from).value.1, opts[i], 0);
    }
  }

  /** Every sequence listed in either pad's table, as written or corrected,
      ends by pressing 'A', so none is empty. */
  lemma OptionsEndInA(p: Pad, from: char, to: char)
    ensures EndInA(Options(p, from, to))
  {
    if p == Directional {
      DirectionalSound(from, to);
      AllEnterEndInA(p, from, to, DirectionalTable(from, to));
    } else if p == Numeric && (from, to) == ('5', '7') {
      assert NumericTable(from, to) == ["^<A", ">^A"];
    } else if p == Numeric && (from, to) == ('5', '9') {
      assert NumericTable(from, to) == ["^>A", "v^A"];
    } else if p == Numeric && (from, to) == ('8', '3') {
      assert NumericTable(from, to) == [">vvA", "vvA"];
    } else {
      NumericFixedSound(from, to);
      AllEnterEndInA(NumericFixed, from, to, NumericFixedTable(from, to));
      assert Options(p, from, to) == NumericFixedTable(from, to);
      assert EndInA(NumericFixedTable(from, to));
    }
  }

  // ---------------------------------------------------------------- lengths

  /** Go's `math.MaxInt`, the start of each minimum. */
  const MaxInt := 0x7fff_ffff_ffff_ffff

  /** The key the arm is on before the i-th key of s is pressed: 'A' at the
      start, then the key pressed before. */
  function Before(s: string, i: nat): char
    requires i < |s|
  {
    if i == 0 then 'A' else s[i - 1]
  }

  /** `sequenceLength(s, d)`: the number of presses at the outermost pad
      that type s on pad d; past the last pad, s is typed directly. */
  function Length(pads: seq<Pad>, s: string, d: nat): int
    decreases |pads| - d, 2, 0
  {
    if d >= |pads| then |s| else Walk(pads, s, d)
  }

  /** The sum, over the keys of s, of the cheapest way to press each one on
      pad d from the key before it. */
  function Walk(pads: seq<Pad>, s: string, d: nat): int
    requires d < |pads|
    decreases |pads| - d, 1, |s|
  {
    if s == [] then 0
    else Walk(pads, s[..|s| - 1], d) + Best(pads, Options(pads[d], Before(s, |s| - 1), s[|s| - 1]), d)
  }

  /** `min` over the options of their lengths one pad further out, starting
      from `math.MaxInt`. */
  function Best(pads: seq<Pad>, opts: seq<string>, d: nat): int
    requires d < |pads|
    decreases |pads| - d, 0, |opts|
  {
    if opts == [] then MaxInt
    else
      var l := Length(pads, opts[|opts| - 1], d + 1);
      var b := Best(pads, opts[..|opts| - 1], d);
      if l < b then l else b
  }

  /** The pads of `newSolver`: the given numeric pad, then `indirection`
      directional pads. */
  function Stack(numpad: Pad, indirection: int): seq<Pad>
  {
    [numpad] + seq(if indirection < 0 then 0 else indirection, _ => Directional)
  }

  /** Every option ends in 'A', so typing a sequence on any pad takes at
      least one press per key. */
  lemma {:induction false} LengthAtLeast(pads: seq<Pad>, s: string, d: nat)
    ensures Length(pads, s, d) >= |s|
    decreases |pads| - d, 2, 0
  {
    if d < |pads| {
      WalkAtLeast(pads, s, d);
    }
  }

  lemma {:induction false} WalkAtLeast(pads: seq<Pad>, s: string, d: nat)
    requires d < |pads|
    ensures Walk(pads, s, d) >= |s|
    decreases |pads| - d, 1, |s|
  {
    if s != [] {
      WalkAtLeast(pads, s[..|s| - 1], d);
      var opts := Options(pads[d], Before(s, |s| - 1), s[|s| - 1]);
      OptionsEndInA(pads[d], Before(s, |s| - 1), s[|s| - 1]);
      BestAtLeast(pads, opts, d);
    }
  }

  lemma {:induction false} BestAtLeast(pads: seq<Pad>, opts: seq<string>, d: nat)
    requires d < |pads| && EndInA(opts)
    ensures Best(pads, opts, d) >= 1
    decreases |pads| - d, 0, |opts|
  {
    if opts != [] {
      LengthAtLeast(pads, opts[|opts| - 1], d + 1);
      BestAtLeast(pads, opts[..|opts| - 1], d);
    }
  }

  /** Pressing 'A' with the arm already on it is one press at every level. */
  lemma {:induction false} PressInPlace(pads: seq<Pad>, d: nat)
    ensures Length(pads, "A", d) == 1
    decreases |pads| - d
  {
    if d < |pads| {
      var opts := Options(pads[d], 'A', 'A');
      assert opts == ["A"];
      PressInPlace(pads, d + 1);
      assert opts[..0] == [];
      assert Best(pads, opts, d) == 1;
      assert "A"[..0] == [] && Before("A", 0) == 'A';
      assert Walk(pads, "A", d) == Walk(pads, [], d) + Best(pads, opts, d);
    }
  }

  /** With no directional pad in between, the code 83A takes 10 presses
      with the source's table, one less than a real walk from 8 to 3
      needs: the table's "vvA" presses 2. */
  lemma ShortcutFrom8()
    ensures Length([Numeric], "83A", 0) == 10
    ensures Length([NumericFixed], "83A", 0) == 11
  {
    var code := "83A";
    assert code[..2] == "83" && "83"[..1] == "8" && "8"[..0] == [];
    assert Before(code, 2) == '3' && Before("83", 1) == '8' && Before("8", 0) == 'A';
    forall p | p == Numeric || p == NumericFixed
      ensures Walk([p], "8", 0) == 5 && Walk([p], code, 0) == Walk([p], "83", 0) + 2
    {
      var toEight := Options(p, 'A', '8');
      assert toEight == ["^^^<A", "<^^^A"] && toEight[..1] == ["^^^<A"] && toEight[..0] == [];
      assert Length([p], "^^^<A", 1) == 5 && Length([p], "<^^^A", 1) == 5;
      assert Best([p], toEight[..1], 0) == 5;
      assert Best([p], toEight, 0) == 5;
      var toA := Options(p, '3', 'A');
      assert toA == ["vA"] && toA[..0] == [];
      assert Best([p], toA, 0) == 2;
    }
    var asWritten := Options(Numeric, '8', '3');
    assert asWritten == [">vvA", "vvA"] && asWritten[..1] == [">vvA"] && asWritten[..0] == [];
    assert Best([Numeric], asWritten, 0) == 3;
    var fixed := Options(NumericFixed, '8', '3');
    assert fixed == [">vvA", "vv>A"] && fixed[..1] == [">vvA"] && fixed[..0] == [];
    assert Best([NumericFixed], fixed, 0) == 4;
  }

  // ---------------------------------------------------------------- the solver

  /** `strings.ReplaceAll(nums, "A", "")`. */
  function DropA(s: string): (r: string)
    ensures forall i :: 0 <= i < |r| ==> r[i] != 'A'
    ensures |r| <= |s|
  {
    if s == [] then []
    else (if s[0] == 'A' then [] else [s[0]]) + DropA(s[1..])
  }

  /** `score`: the length at the outermost pad times the code's number; a
      code that is not a number once its 'A's are dropped is fatal. */
  function ScoreOf(pads: seq<Pad>, nums: string): Result<int>
  {
    match ParseInt(DropA(nums))
    case None => Err("Invalid numeric keypad entry")
    case Some(i) => Ok(Length(pads, nums, 0) * i)
  }

  /** A code without 'A' is its own number text. */
  lemma {:induction false} DropANone(s: string)
    requires forall i :: 0 <= i < |s| ==> s[i] != 'A'
    ensures DropA(s) == s
  {
    if s != [] {
      DropANone(s[1..]);
      assert s == [s[0]] + s[1..];
    }
  }

  /** The score fails exactly on a code that is not a number without its
      'A's, and is otherwise at least the code's length times a
      non-negative number. */
  lemma ScoreBound(pads: seq<Pad>, nums: string)
    ensures ScoreOf(pads, nums).Ok? <==> ParseInt(DropA(nums)).Some?
    ensures ScoreOf(pads, nums).Ok? && ParseInt(DropA(nums)).value >= 0 ==>
      ScoreOf(pads, nums).value >= |nums| * ParseInt(DropA(nums)).value
  {
    LengthAtLeast(pads, nums, 0);
    if ParseInt(DropA(nums)).Some? {
      var i := ParseInt(DropA(nums)).value;
      if i >= 0 {
        MulMono(|nums|, Length(pads, nums, 0), i);
      }
    }
  }

  lemma MulMono(a: int, b: int, c: int)
    requires a <= b && c >= 0
    ensures a * c <= b * c
  {
  }

  /** `solve`: the sum of the scores of the lines, or the first line's
      error. */
  function Total(pads: seq<Pad>, lines: seq<string>): Result<int>
  {
    if lines == [] then Ok(0)
    else
      match Total(pads, lines[..|lines| - 1])
      case Err(e) => Err(e)
      case Ok(t) =>
        match ScoreOf(pads, lines[|lines| - 1])
        case Err(e) => Err(e)
        case Ok(x) => Ok(t + x)
  }

  /** `solver`: the stack of pads and the cache of lengths by sequence and
      depth. */
  class Solver {
    const pads: seq<Pad>
    var cache: map<(string, nat), int>

    /** Every cached length is the length of its sequence at its depth. */
    ghost predicate Valid()
      reads this
    {
      forall k :: k in cache ==> cache[k] == Length(pads, k.0, k.1)
    }

    /** `newSolver`: the numeric pad and then `indirection` directional
        pads, with an empty cache. */
    constructor (numpad: Pad, indirection: int)
      ensures pads == Stack(numpad, indirection) && cache == map[] && Valid()
    {
      var ps := [numpad];
      var i := 0;
      while i < indirection
        invariant 0 <= i <= (if indirection < 0 then 0 else indirection)
        invariant ps == [numpad] + seq(i, _ => Directional)
      {
        ps := ps + [Directional];
        i := i + 1;
      }
      pads := ps;
      cache := map[];
    }

    /** `sequenceLength`: the length of s at depth d, read from the cache
        when a non-zero length is stored there and computed, and stored,
        otherwise. */
    method SequenceLength(s: string, d: nat) returns (r: int)
      requires Valid()
      modifies this
      ensures Valid() && r == Length(pads, s, d)
      ensures cache.Keys >= old(cache.Keys)
      decreases |pads| - d
    {
      if d >= |pads| {
        return |s|;
      }
      var k := (s, d);
      if k in cache && cache[k] != 0 {
        return cache[k];
      }
      var total := 0;
      var p := pads[d];
      var cur := 'A';
      var i := 0;
      while i < |s|
        invariant 0 <= i <= |s| && Valid() && cache.Keys >= old(cache.Keys)
        invariant i > 0 ==> cur == s[i - 1]
        invariant i == 0 ==> cur == 'A'
        invariant total == Walk(pads, s[..i], d)
      {
        var opts := Options(p, cur, s[i]);
        var l := MaxInt;
        var j := 0;
        while j < |opts|
          invariant 0 <= j <= |opts| && Valid() && cache.Keys >= old(cache.Keys)
          invariant l == Best(pads, opts[..j], d)
        {
          var x := SequenceLength(opts[j], d + 1);
          assert opts[..j + 1][..j] == opts[..j];
          l := if x < l then x else l;
          j := j + 1;
        }
        assert opts[..j] == opts;
        assert s[..i + 1][..i] == s[..i] && Before(s[..i + 1], i) == cur;
        total := total + l;
        cur := s[i];
        i := i + 1;
      }
      assert s[..i] == s;
      cache := cache[k := total];
      r := total;
    }

    /** `score`, with the lengths from this solver. */
    method Score(nums: string) returns (r: Result<int>)
      requires Valid()
      modifies this
      ensures Valid() && r == ScoreOf(pads, nums)
      ensures cache.Keys >= old(cache.Keys)
    {
      var i := ParseInt(DropA(nums));
      if i.None? {
        return Err("Invalid numeric keypad entry");
      }
      var l := SequenceLength(nums, 0);
      r := Ok(l * i.value);
    }
  }

  /** `solve`: one solver for all lines, summing their scores. */
  method Solve(lines: seq<string>, numpad: Pad, levels: int) returns (r: Result<int>)
    ensures r == Total(Stack(numpad, levels), lines)
  {
    var s := new Solver(numpad, levels);
    var total := 0;
    var i := 0;
    while i < |lines|
      invariant 0 <= i <= |lines| && s.Valid() && s.pads == Stack(numpad, levels)
      invariant Total(s.pads, lines[..i]) == Ok(total)
    {
      var x := s.Score(lines[i]);
      assert lines[..i + 1][..i] == lines[..i];
      if x.Err? {
        TotalErr(s.pads, lines, i + 1);
        return Err(x.msg);
      }
      total := total + x.value;
      i := i + 1;
    }
    assert lines[..i] == lines;
    r := Ok(total);
  }

  /** An error on some line is the error of every longer prefix. */
  lemma {:induction false} TotalErr(pads: seq<Pad>, lines: seq<string>, n: nat)
    requires 0 < n <= |lines| && Total(pads, lines[..n]).Err?
    ensures Total(pads, lines) == Total(pads, lines[..n])
    decreases |lines| - n
  {
    if n < |lines| {
      assert lines[..n + 1][..n] == lines[..n];
      TotalErr(pads, lines, n + 1);
    } else {
      assert lines[..n] == lines;
    }
  }

  /** `part1`: two directional pads between the person and the robot at
      the numeric pad. */
  method Part1(lines: seq<string>) returns (r: Result<int>)
    ensures r == Total(Stack(Numeric, 2), lines)
  {
    r := Solve(lines, Numeric, 2);
  }

  /** `part2`: twenty-five directional pads. */
  method Part2(lines: seq<string>) returns (r: Result<int>)
    ensures r == Total(Stack(Numeric, 25), lines)
  {
    r := Solve(lines, Numeric, 25);
  }

  /** `part1` with the corrected numeric table. */
  method Part1Fixed(lines: seq<string>) returns (r: Result<int>)
    ensures r == Total(Stack(NumericFixed, 2), lines)
  {
    r := Solve(lines, NumericFixed, 2);
  }

  /** `part2` with the corrected numeric table. */
  method Part2Fixed(lines: seq<string>) returns (r: Result<int>)
    ensures r == Total(Stack(NumericFixed, 25), lines)
  {
    r := Solve(lines, NumericFixed, 25);
  }
}
