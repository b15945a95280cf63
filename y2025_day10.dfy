/** 2025 day 10, the machines and part 1. Each input line describes a
    factory machine: a pattern of indicator lights in square brackets,
    buttons in parentheses that each toggle a list of lights, and joltage
    targets in braces, as in `[.##.] (3) (1,3) (2) {3,5,4}`. Part 1 asks
    for the fewest button presses that light exactly the pattern; it is
    found level by level over combinations of distinct buttons. */
module Y2025Day10 {
  import opened Common

  /** A Go `uint` used as a bit set, as the positions of its one bits. The
      64-bit width is not modelled (see the README). */
  type Bits = set<nat>

  /** Bitwise exclusive or. */
  function Xor(a: Bits, b: Bits): (r: Bits)
    ensures forall x :: x in r <==> (x in a) != (x in b)
  {
    (a - b) + (b - a)
  }

  /** `machine`: the lights to turn on, the lights each button toggles, and
      the joltage targets. The line number is used only for logging. */
  datatype Machine = Machine(desired: Bits, buttons: seq<Bits>, joltage: seq<int>)

  // ---------------------------------------------------------------- fields

  /** Go's `unicode.IsSpace`: the ASCII spaces, NEL, NBSP and the other
      Unicode space separators. */
  predicate GoSpace(c: char)
  {
    IsSpace(c) || c == '\U{0085}' || c == '\U{00A0}' || c == '\U{1680}'
    || ('\U{2000}' <= c <= '\U{200A}') || c == '\U{2028}' || c == '\U{2029}'
    || c == '\U{202F}' || c == '\U{205F}' || c == '\U{3000}'
  }

  predicate SpaceFree(w: string) { forall i :: 0 <= i < |w| ==> !GoSpace(w[i]) }

  /** The run of non-space characters at the front of `s`. */
  function WordAt(s: string): (w: string)
    ensures |w| <= |s| && w == s[..|w|] && SpaceFree(w)
    ensures |w| < |s| ==> GoSpace(s[|w|])
  {
    if s == [] || GoSpace(s[0]) then [] else [s[0]] + WordAt(s[1..])
  }

  /** Go's `strings.Fields`: the maximal runs of non-space characters. */
  function Fields(s: string): (ws: seq<string>)
    ensures forall k :: 0 <= k < |ws| ==> ws[k] != [] && SpaceFree(ws[k])
    decreases |s|
  {
    if s == [] then []
    else if GoSpace(s[0]) then Fields(s[1..])
    else
      var w := WordAt(s);
      [w] + Fields(s[|w|..])
  }

  lemma {:induction false} WordAtWhole(w: string, rest: string)
    requires SpaceFree(w) && (rest == [] || GoSpace(rest[0]))
    ensures WordAt(w + rest) == w
  {
    if w != [] {
      assert (w + rest)[1..] == w[1..] + rest;
      WordAtWhole(w[1..], rest);
    }
  }

  /** Words that Fields can return: non-empty and without spaces. */
  predicate Plain(ws: seq<string>)
  {
    forall k :: 0 <= k < |ws| ==> ws[k] != [] && SpaceFree(ws[k])
  }

  /** Fields reads back words joined by single spaces. */
  lemma {:induction false} FieldsJoin(ws: seq<string>)
    requires Plain(ws)
    ensures Fields(JoinWith(" ", ws)) == ws
  {
    if |ws| == 1 {
      WordAtWhole(ws[0], []);
      assert ws[0] + [] == ws[0];
      assert ws[0][|ws[0]|..] == [];
    } else if |ws| > 1 {
      var rest := JoinWith(" ", ws[1..]);
      var s := ws[0] + " " + rest;
      WordAtWhole(ws[0], " " + rest);
      assert ws[0] + (" " + rest) == s;
      assert s[|ws[0]|..] == " " + rest;
      assert (" " + rest)[1..] == rest;
      FieldsJoin(ws[1..]);
      assert [ws[0]] + ws[1..] == ws;
    }
  }

  // ---------------------------------------------------------------- parsing

  /** The characters between the first and the last of `word`, split at
      commas: the items of `(1,3)` or `{3,5,4,7}`. */
  function Items(word: string): seq<string>
    requires |word| >= 2
  {
    SplitOn(word[1..|word| - 1], ',')
  }

  /** The lights a bracketed pattern asks for: bit i is set exactly when the
      i-th character inside the brackets is '#'. */
  function Lights(pattern: string): Bits
  {
    set i: nat | i < |pattern| && pattern[i] == '#'
  }

  /** `parseButton` on the items of `word`: each index is OR-ed in as
      `1 << i`. The first item that is not an integer is the fatal
      "Non-integer button"; a negative index makes the shift panic. */
  function ButtonFrom(items: seq<string>, word: string): Result<Bits>
  {
    if items == [] then Ok({})
    else match ParseInt(items[0])
      case None => Err("Non-integer button in " + word)
      case Some(i) =>
        if i < 0 then Err("negative shift amount")
        else match ButtonFrom(items[1..], word)
          case Err(e) => Err(e)
          case Ok(b) => Ok({i as nat} + b)
  }

  /** The joltage items, or the fatal "Non-numeric joltage" of the first
      item that is not an integer. */
  function JoltagesFrom(items: seq<string>, last: string): Result<seq<int>>
  {
    if items == [] then Ok([])
    else match ParseInt(items[0])
      case None => Err("Non-numeric joltage in " + last)
      case Some(j) =>
        match JoltagesFrom(items[1..], last)
        case Err(e) => Err(e)
        case Ok(js) => Ok([j] + js)
  }

  /** The buttons of the middle words, in order; slicing a one-character
      word panics. */
  function ButtonsOf(words: seq<string>): Result<seq<Bits>>
  {
    if words == [] then Ok([])
    else if |words[0]| < 2 then Err("slice bounds out of range")
    else match ButtonFrom(Items(words[0]), words[0])
      case Err(e) => Err(e)
      case Ok(b) =>
        match ButtonsOf(words[1..])
        case Err(e) => Err(e)
        case Ok(bs) => Ok([b] + bs)
  }

  /** What `parseMachine` makes of a line: the first word is the light
      pattern, the last the joltages, the ones between the buttons. A line
      without words, or with a single word, panics on the slice. */
  function MachineOf(line: string): Result<Machine>
  {
    var words := Fields(line);
    if |words| == 0 then Err("index out of range")
    else if |words[0]| < 2 || |words| < 2 then Err("slice bounds out of range")
    else match ButtonsOf(words[1..|words| - 1])
      case Err(e) => Err(e)
      case Ok(buttons) =>
        var last := words[|words| - 1];
        if |last| < 2 then Err("slice bounds out of range")
        else match JoltagesFrom(Items(last), last)
          case Err(e) => Err(e)
          case Ok(js) => Ok(Machine(Lights(words[0][1..|words[0]| - 1]), buttons, js))
  }

  /** `parseButton`, loop by loop. */
  method ParseButton(word: string) returns (r: Result<Bits>)
    requires |word| >= 2
    ensures r == ButtonFrom(Items(word), word)
  {
    var items := Items(word);
    var b: Bits := {};
    var k := 0;
    assert items[0..] == items;
    assert ButtonFrom(items, word).Ok? ==> {} + ButtonFrom(items, word).value == ButtonFrom(items, word).value;
    while k < |items|
      invariant 0 <= k <= |items|
      invariant ButtonFrom(items, word) == Joined(b, ButtonFrom(items[k..], word))
    {
      assert items[k..][1..] == items[k + 1..];
      var i := ParseInt(items[k]);
      if i.None? {
        return Err("Non-integer button in " + word);
      }
      if i.value < 0 {
        return Err("negative shift amount");
      }
      ghost var rest := ButtonFrom(items[k + 1..], word);
      assert rest.Ok? ==> b + ({i.value as nat} + rest.value) == (b + {i.value as nat}) + rest.value;
      b := b + {i.value as nat};
      k := k + 1;
    }
    assert items[k..] == [];
    r := Ok(b);
  }

  /** The bits `b` already OR-ed in, added to what the rest yields. */
  function Joined(b: Bits, rest: Result<Bits>): Result<Bits>
  {
    if rest.Ok? then Ok(b + rest.value) else rest
  }

  /** `parseMachine`: the light pattern, the buttons and the joltages, each
      read by its own loop. */
  method ParseMachine(line: string) returns (r: Result<Machine>)
    ensures r == MachineOf(line)
  {
    var words := Fields(line);
    if |words| == 0 {
      return Err("index out of range");
    }
    var first := words[0];
    if |first| < 2 {
      return Err("slice bounds out of range");
    }
    var desired := ReadLights(first[1..|first| - 1]);
    if |words| < 2 {
      return Err("slice bounds out of range");
    }
    var buttons := ReadButtons(words[1..|words| - 1]);
    if buttons.Err? {
      return Err(buttons.msg);
    }
    var last := words[|words| - 1];
    if |last| < 2 {
      return Err("slice bounds out of range");
    }
    var joltage := ReadJoltages(last);
    if joltage.Err? {
      return Err(joltage.msg);
    }
    r := Ok(Machine(desired, buttons.value, joltage.value));
  }

  /** The loop of `parseMachine` over the light pattern. */
  method ReadLights(pattern: string) returns (desired: Bits)
    ensures desired == Lights(pattern)
  {
    desired := {};
    for i := 0 to |pattern|
      invariant desired == Lights(pattern[..i])
    {
      assert pattern[..i + 1][..i] == pattern[..i];
      if pattern[i] == '#' {
        desired := desired + {i};
      }
    }
    assert pattern[..|pattern|] == pattern;
  }

  /** The loop of `parseMachine` over the button words. */
  method ReadButtons(middle: seq<string>) returns (r: Result<seq<Bits>>)
    ensures r == ButtonsOf(middle)
  {
    var buttons: seq<Bits> := [];
    assert middle[0..] == middle;
    assert ButtonsOf(middle).Ok? ==> [] + ButtonsOf(middle).value == ButtonsOf(middle).value;
    for k := 0 to |middle|
      invariant ButtonsOf(middle) == Prefixed(buttons, ButtonsOf(middle[k..]))
    {
      assert middle[k..][1..] == middle[k + 1..];
      if |middle[k]| < 2 {
        return Err("slice bounds out of range");
      }
      var b := ParseButton(middle[k]);
      if b.Err? {
        return Err(b.msg);
      }
      ghost var rest := ButtonsOf(middle[k + 1..]);
      assert rest.Ok? ==> buttons + ([b.value] + rest.value) == (buttons + [b.value]) + rest.value;
      buttons := buttons + [b.value];
    }
    assert middle[|middle|..] == [];
    assert buttons + [] == buttons;
    r := Ok(buttons);
  }

  /** The loop of `parseMachine` over the joltage items. */
  method ReadJoltages(last: string) returns (r: Result<seq<int>>)
    requires |last| >= 2
    ensures r == JoltagesFrom(Items(last), last)
  {
    var items := Items(last);
    var joltage: seq<int> := [];
    assert items[0..] == items;
    assert JoltagesFrom(items, last).Ok? ==> [] + JoltagesFrom(items, last).value == JoltagesFrom(items, last).value;
    for k := 0 to |items|
      invariant JoltagesFrom(items, last) == Prefixed(joltage, JoltagesFrom(items[k..], last))
    {
      assert items[k..][1..] == items[k + 1..];
      var j := ParseInt(items[k]);
      if j.None? {
        return Err("Non-numeric joltage in " + last);
      }
      ghost var rest := JoltagesFrom(items[k + 1..], last);
      assert rest.Ok? ==> joltage + ([j.value] + rest.value) == (joltage + [j.value]) + rest.value;
      joltage := joltage + [j.value];
    }
    assert items[|items|..] == [];
    assert joltage + [] == joltage;
    r := Ok(joltage);
  }

  /** The values `done` already parsed, in front of what the rest yields. */
  function Prefixed<T>(done: seq<T>, rest: Result<seq<T>>): Result<seq<T>>
  {
    if rest.Ok? then Ok(done + rest.value) else rest
  }

  // ---------------------------------------------------------------- text

  /** The decimal texts of a list of integers. */
  function Texts(xs: seq<int>): (ts: seq<string>)
    ensures |ts| == |xs|
  {
    if xs == [] then [] else [IntString(xs[0])] + Texts(xs[1..])
  }

  /** A list written between delimiters, as in `(1,3)` or `{3,5,4}`. */
  function ListText(open: char, xs: seq<int>, close: char): string
  {
    [open] + JoinWith(",", Texts(xs)) + [close]
  }

  function ButtonTexts(buttons: seq<seq<nat>>): (ts: seq<string>)
    ensures |ts| == |buttons|
  {
    if buttons == [] then [] else [ListText('(', buttons[0], ')')] + ButtonTexts(buttons[1..])
  }

  /** A machine line: the pattern, the buttons and the joltages, separated
      by single spaces. */
  function MachineText(pattern: string, buttons: seq<seq<nat>>, joltage: seq<int>): string
  {
    JoinWith(" ", ["[" + pattern + "]"] + ButtonTexts(buttons) + [ListText('{', joltage, '}')])
  }

  function Elements(xs: seq<nat>): Bits
  {
    set i | i in xs
  }

  function ButtonSets(buttons: seq<seq<nat>>): (bs: seq<Bits>)
    ensures |bs| == |buttons|
  {
    if buttons == [] then [] else [Elements(buttons[0])] + ButtonSets(buttons[1..])
  }

  lemma IntStringPlain(i: int)
    ensures IntString(i) != [] && ',' !in IntString(i) && SpaceFree(IntString(i))
  {
    var t := NatString(if i < 0 then -i else i);
    NatStringValue(if i < 0 then -i else i);
    assert forall c :: c in t ==> IsDigit(c);
    if i < 0 {
      assert IntString(i) == "-" + t;
      assert forall c :: c in IntString(i) ==> c == '-' || c in t;
    } else {
      assert IntString(i) == t;
    }
  }

  lemma {:induction false} JoinPlain(ts: seq<string>)
    requires forall k :: 0 <= k < |ts| ==> ',' !in ts[k] && SpaceFree(ts[k])
    ensures SpaceFree(JoinWith(",", ts))
  {
    if |ts| > 1 {
      JoinPlain(ts[1..]);
    }
  }

  lemma {:induction false} TextsPlain(xs: seq<int>)
    ensures forall k :: 0 <= k < |xs| ==> Texts(xs)[k] != [] && ',' !in Texts(xs)[k] && SpaceFree(Texts(xs)[k])
    ensures forall k :: 0 <= k < |xs| ==> ParseInt(Texts(xs)[k]) == Some(xs[k])
  {
    if xs != [] {
      IntStringPlain(xs[0]);
      ParseIntString(xs[0]);
      TextsPlain(xs[1..]);
    }
  }

  /** SplitOn reads back pieces joined by the separator. */
  lemma {:induction false} SplitJoin(ps: seq<string>)
    requires ps != []
    requires forall k :: 0 <= k < |ps| ==> ',' !in ps[k]
    ensures SplitOn(JoinWith(",", ps), ',') == ps
  {
    if |ps| == 1 {
      SplitNoSep(ps[0], ',');
    } else {
      SplitJoin(ps[1..]);
      SplitAppendSep(ps[0], JoinWith(",", ps[1..]), ',');
      assert [ps[0]] + ps[1..] == ps;
    }
  }

  lemma {:induction false} ItemsOfList(open: char, xs: seq<int>, close: char)
    requires xs != []
    ensures |ListText(open, xs, close)| >= 2
    ensures Items(ListText(open, xs, close)) == Texts(xs)
  {
    var w := ListText(open, xs, close);
    TextsPlain(xs);
    assert w[1..|w| - 1] == JoinWith(",", Texts(xs));
    SplitJoin(Texts(xs));
  }

  lemma {:induction false} ButtonFromTexts(xs: seq<nat>, word: string)
    ensures ButtonFrom(Texts(xs), word) == Ok(Elements(xs))
  {
    TextsPlain(xs);
    if xs != [] {
      var ts := Texts(xs);
      assert ts[1..] == Texts(xs[1..]);
      assert ParseInt(ts[0]) == Some(xs[0] as int);
      ButtonFromTexts(xs[1..], word);
      assert Elements(xs) == {xs[0]} + Elements(xs[1..]) by {
        assert xs == [xs[0]] + xs[1..];
      }
    } else {
      assert Elements(xs) == {};
    }
  }

  lemma {:induction false} JoltagesFromTexts(xs: seq<int>, last: string)
    ensures JoltagesFrom(Texts(xs), last) == Ok(xs)
  {
    TextsPlain(xs);
    if xs != [] {
      assert Texts(xs)[1..] == Texts(xs[1..]);
      JoltagesFromTexts(xs[1..], last);
      assert [xs[0]] + xs[1..] == xs;
    }
  }

  lemma {:induction false} ButtonsOfTexts(buttons: seq<seq<nat>>)
    requires forall k :: 0 <= k < |buttons| ==> buttons[k] != []
    ensures ButtonsOf(ButtonTexts(buttons)) == Ok(ButtonSets(buttons))
  {
    if buttons != [] {
      var w := ListText('(', buttons[0], ')');
      ItemsOfList('(', buttons[0], ')');
      ButtonFromTexts(buttons[0], w);
      assert ButtonTexts(buttons)[1..] == ButtonTexts(buttons[1..]);
      ButtonsOfTexts(buttons[1..]);
    }
  }

  lemma {:induction false} ListTextPlain(open: char, xs: seq<int>, close: char)
    requires !GoSpace(open) && !GoSpace(close)
    ensures ListText(open, xs, close) != [] && SpaceFree(ListText(open, xs, close))
  {
    TextsPlain(xs);
    JoinPlain(Texts(xs));
  }

  lemma {:induction false} ButtonTextsPlain(buttons: seq<seq<nat>>)
    ensures Plain(ButtonTexts(buttons))
  {
    if buttons != [] {
      ListTextPlain('(', buttons[0], ')');
      ButtonTextsPlain(buttons[1..]);
      assert ButtonTexts(buttons) == [ListText('(', buttons[0], ')')] + ButtonTexts(buttons[1..]);
    }
  }

  lemma PlainConcat(a: seq<string>, b: seq<string>)
    requires Plain(a) && Plain(b)
    ensures Plain(a + b)
  {
  }

  lemma LineWords(pattern: string, buttons: seq<seq<nat>>, joltage: seq<int>)
    requires SpaceFree(pattern)
    ensures Plain(["[" + pattern + "]"] + ButtonTexts(buttons) + [ListText('{', joltage, '}')])
  {
    var head := "[" + pattern + "]";
    assert forall i :: 1 <= i < |head| - 1 ==> head[i] == pattern[i - 1];
    ButtonTextsPlain(buttons);
    ListTextPlain('{', joltage, '}');
    PlainConcat([head], ButtonTexts(buttons));
    PlainConcat([head] + ButtonTexts(buttons), [ListText('{', joltage, '}')]);
  }

  /** MachineOf from the fields of a line. */
  lemma MachineOfFields(line: string, bs: seq<Bits>, js: seq<int>)
    requires |Fields(line)| >= 2 && |Fields(line)[0]| >= 2 && |Fields(line)[|Fields(line)| - 1]| >= 2
    requires ButtonsOf(Fields(line)[1..|Fields(line)| - 1]) == Ok(bs)
    requires JoltagesFrom(Items(Fields(line)[|Fields(line)| - 1]), Fields(line)[|Fields(line)| - 1]) == Ok(js)
    ensures MachineOf(line) == Ok(Machine(Lights(Fields(line)[0][1..|Fields(line)[0]| - 1]), bs, js))
  {
  }

  /** Parsing reads back a machine line: the lights are the '#' positions of
      the pattern, the buttons the listed indices, the joltages the listed
      numbers. */
  lemma MachineOfText(pattern: string, buttons: seq<seq<nat>>, joltage: seq<int>)
    requires SpaceFree(pattern)
    requires forall k :: 0 <= k < |buttons| ==> buttons[k] != []
    requires joltage != []
    ensures MachineOf(MachineText(pattern, buttons, joltage))
         == Ok(Machine(Lights(pattern), ButtonSets(buttons), joltage))
  {
    var head := "[" + pattern + "]";
    var tail := ListText('{', joltage, '}');
    var ws := [head] + ButtonTexts(buttons) + [tail];
    var line := MachineText(pattern, buttons, joltage);
    LineWords(pattern, buttons, joltage);
    FieldsJoin(ws);
    assert Fields(line) == ws;
    assert ws[1..|ws| - 1] == ButtonTexts(buttons);
    ButtonsOfTexts(buttons);
    ItemsOfList('{', joltage, '}');
    JoltagesFromTexts(joltage, tail);
    assert head[1..|head| - 1] == pattern;
    MachineOfFields(line, ButtonSets(buttons), joltage);
  }

  // ---------------------------------------------------------------- part 1

  /** The positions of the buttons. */
  function Indices(n: nat): (r: set<nat>)
    ensures forall i: nat :: i in r <==> i < n
    ensures |r| == n
  {
    if n == 0 then {} else Indices(n - 1) + {n - 1}
  }

  /** The lights lit by pressing, once each, the buttons below `n` that are
      in `pressed`. */
  function XorUpTo(buttons: seq<Bits>, pressed: set<nat>, n: nat): Bits
    requires n <= |buttons|
  {
    if n == 0 then {}
    else if n - 1 in pressed then Xor(XorUpTo(buttons, pressed, n - 1), buttons[n - 1])
    else XorUpTo(buttons, pressed, n - 1)
  }

  /** The lights lit by pressing each button of `pressed` once. */
  function XorOf(buttons: seq<Bits>, pressed: set<nat>): Bits
  {
    XorUpTo(buttons, pressed, |buttons|)
  }

  /** Pressing the buttons of `pressed` once each lights the pattern. */
  ghost predicate Reaches(m: Machine, pressed: set<nat>)
  {
    pressed <= Indices(|m.buttons|) && XorOf(m.buttons, pressed) == m.desired
  }

  /** k distinct buttons light the pattern, and no fewer do. */
  ghost predicate Fewest(m: Machine, k: nat)
  {
    (exists p :: Reaches(m, p) && |p| == k) && forall p :: Reaches(m, p) ==> k <= |p|
  }

  ghost predicate Solvable(m: Machine)
  {
    exists p :: Reaches(m, p)
  }

  /** Every combination that lights the pattern has more than k buttons. */
  ghost predicate Above(m: Machine, k: nat)
  {
    forall p :: Reaches(m, p) ==> |p| > k
  }

  /** No state of `ts` lights the pattern. */
  ghost predicate NoHit(m: Machine, ts: seq<PressState>)
  {
    forall t :: t in ts ==> t.lit != m.desired
  }

  /** `pressState`: the buttons pressed so far and the lights they lit. */
  datatype PressState = PressState(pressed: set<nat>, lit: Bits)

  /** The states that press one more button, from `i` on, in index order. */
  function Extend(s: PressState, buttons: seq<Bits>, i: nat): seq<PressState>
    decreases |buttons| - i
  {
    if i >= |buttons| then []
    else if i in s.pressed then Extend(s, buttons, i + 1)
    else [PressState(s.pressed + {i}, Xor(s.lit, buttons[i]))] + Extend(s, buttons, i + 1)
  }

  /** The next level, in the order the loops of `machinePresses1` build it. */
  function NextLevel(prev: seq<PressState>, buttons: seq<Bits>): seq<PressState>
  {
    if prev == [] then []
    else NextLevel(prev[..|prev| - 1], buttons) + Extend(prev[|prev| - 1], buttons, 0)
  }

  /** The states after k presses of distinct buttons. */
  function Level(buttons: seq<Bits>, k: nat): seq<PressState>
  {
    if k == 0 then [PressState({}, {})] else NextLevel(Level(buttons, k - 1), buttons)
  }

  lemma {:induction false} XorUpToOutside(buttons: seq<Bits>, pressed: set<nat>, i: nat, n: nat)
    requires n <= |buttons| && n <= i
    ensures XorUpTo(buttons, pressed + {i}, n) == XorUpTo(buttons, pressed, n)
  {
    if n > 0 {
      XorUpToOutside(buttons, pressed, i, n - 1);
    }
  }

  /** Pressing no button lights nothing. */
  lemma {:induction false} XorNone(buttons: seq<Bits>, n: nat)
    requires n <= |buttons|
    ensures XorUpTo(buttons, {}, n) == {}
  {
    if n > 0 {
      XorNone(buttons, n - 1);
    }
  }

  /** Pressing one more button toggles its lights. */
  lemma {:induction false} XorUpToAdd(buttons: seq<Bits>, pressed: set<nat>, i: nat, n: nat)
    requires i < n <= |buttons| && i !in pressed
    ensures XorUpTo(buttons, pressed + {i}, n) == Xor(XorUpTo(buttons, pressed, n), buttons[i])
  {
    if n - 1 == i {
      XorUpToOutside(buttons, pressed, i, n - 1);
    } else {
      XorUpToAdd(buttons, pressed, i, n - 1);
      var a := XorUpTo(buttons, pressed, n - 1);
      if n - 1 in pressed {
        assert Xor(Xor(a, buttons[i]), buttons[n - 1]) == Xor(Xor(a, buttons[n - 1]), buttons[i]);
      }
    }
  }

  /** State t presses k distinct buttons and lights what they toggle. */
  ghost predicate Sound(buttons: seq<Bits>, t: PressState, k: nat)
  {
    t.pressed <= Indices(|buttons|) && |t.pressed| == k && t.lit == XorOf(buttons, t.pressed)
  }

  /** Every state of `Extend` presses one more, unpressed, button. */
  lemma {:induction false} ExtendSound(s: PressState, buttons: seq<Bits>, i0: nat, k: nat)
    requires Sound(buttons, s, k)
    ensures forall t :: t in Extend(s, buttons, i0) ==> Sound(buttons, t, k + 1)
    decreases |buttons| - i0
  {
    if i0 < |buttons| {
      ExtendSound(s, buttons, i0 + 1, k);
      if i0 !in s.pressed {
        StepSound(buttons, k, s, i0);
      }
    }
  }

  lemma {:induction false} NextLevelSound(prev: seq<PressState>, buttons: seq<Bits>, k: nat)
    requires forall s :: s in prev ==> Sound(buttons, s, k)
    ensures forall t :: t in NextLevel(prev, buttons) ==> Sound(buttons, t, k + 1)
  {
    if prev != [] {
      assert forall s :: s in prev[..|prev| - 1] ==> s in prev;
      NextLevelSound(prev[..|prev| - 1], buttons, k);
      ExtendSound(prev[|prev| - 1], buttons, 0, k);
    }
  }

  /** `Extend` offers every unpressed button from `i0` on. */
  lemma {:induction false} ExtendHas(s: PressState, buttons: seq<Bits>, i0: nat, i: nat)
    requires i0 <= i < |buttons| && i !in s.pressed
    ensures PressState(s.pressed + {i}, Xor(s.lit, buttons[i])) in Extend(s, buttons, i0)
    decreases i - i0
  {
    if i0 < i {
      ExtendHas(s, buttons, i0 + 1, i);
    }
  }

  lemma {:induction false} NextLevelHas(prev: seq<PressState>, buttons: seq<Bits>, j: nat, t: PressState)
    requires j < |prev| && t in Extend(prev[j], buttons, 0)
    ensures t in NextLevel(prev, buttons)
  {
    if j < |prev| - 1 {
      assert prev[..|prev| - 1][j] == prev[j];
      NextLevelHas(prev[..|prev| - 1], buttons, j, t);
    }
  }

  /** Every state at level k presses k distinct buttons and lights what they
      toggle. */
  lemma {:induction false} LevelSound(buttons: seq<Bits>, k: nat)
    ensures forall t :: t in Level(buttons, k) ==> Sound(buttons, t, k)
  {
    if k == 0 {
      XorNone(buttons, |buttons|);
    } else {
      LevelSound(buttons, k - 1);
      NextLevelSound(Level(buttons, k - 1), buttons, k - 1);
    }
  }

  /** Pressing an unpressed button from a sound state of level k. */
  lemma StepSound(buttons: seq<Bits>, k: nat, s: PressState, i: nat)
    requires s.pressed <= Indices(|buttons|) && |s.pressed| == k
    requires s.lit == XorOf(buttons, s.pressed)
    requires i < |buttons| && i !in s.pressed
    ensures s.pressed + {i} <= Indices(|buttons|) && |s.pressed + {i}| == k + 1
    ensures Xor(s.lit, buttons[i]) == XorOf(buttons, s.pressed + {i})
  {
    XorUpToAdd(buttons, s.pressed, i, |buttons|);
  }

  /** Every choice of k distinct buttons appears at level k. */
  lemma {:induction false} LevelComplete(buttons: seq<Bits>, k: nat, p: set<nat>)
    requires p <= Indices(|buttons|) && |p| == k
    ensures exists j :: 0 <= j < |Level(buttons, k)| && Level(buttons, k)[j].pressed == p
  {
    if k == 0 {
      assert p == {};
      assert Level(buttons, 0)[0].pressed == p;
    } else {
      var prev := Level(buttons, k - 1);
      var i :| i in p;
      var q := p - {i};
      RemoveOne(p, i);
      LevelComplete(buttons, k - 1, q);
      var j :| 0 <= j < |prev| && prev[j].pressed == q;
      var t := PressState(q + {i}, Xor(prev[j].lit, buttons[i]));
      ExtendHas(prev[j], buttons, 0, i);
      NextLevelHas(prev, buttons, j, t);
      assert Level(buttons, k) == NextLevel(prev, buttons);
    }
  }

  lemma RemoveOne<T>(p: set<T>, i: T)
    requires i in p
    ensures |p - {i}| == |p| - 1 && (p - {i}) + {i} == p && p - {i} <= p
  {
  }

  /** After a level without a match, no k + 1 buttons light the pattern. */
  lemma NoMatchAtLevel(m: Machine, k: nat)
    requires Above(m, k) && NoHit(m, Level(m.buttons, k + 1))
    ensures Above(m, k + 1)
  {
    forall p | Reaches(m, p)
      ensures |p| > k + 1
    {
      if |p| == k + 1 {
        LevelComplete(m.buttons, k + 1, p);
        var j :| 0 <= j < |Level(m.buttons, k + 1)| && Level(m.buttons, k + 1)[j].pressed == p;
        var t := Level(m.buttons, k + 1)[j];
        assert t in Level(m.buttons, k + 1);
        LevelSound(m.buttons, k + 1);
      }
    }
  }

  /** `machinePresses1`: the fewest distinct buttons whose presses light the
      pattern, searched level by level. When no combination works the level
      lists run dry and the source loops for ever; that is `None`. */
  method MachinePresses1(m: Machine) returns (r: Option<nat>)
    ensures m.desired == {} ==> r == Some(0)
    ensures r.Some? ==> Fewest(m, r.value)
    ensures r.None? <==> !Solvable(m)
  {
    XorNone(m.buttons, |m.buttons|);
    if m.desired == {} {
      assert Reaches(m, {});
      return Some(0);
    }
    var n := |m.buttons|;
    var prev := [PressState({}, {})];
    var k := 0;
    while k < n
      invariant 0 <= k <= n
      invariant prev == Level(m.buttons, k)
      invariant Above(m, k)
    {
      LevelSound(m.buttons, k);
      var cur, found := NextStates(m, prev, k);
      if found.Some? {
        return found;
      }
      NoMatchAtLevel(m, k);
      prev := cur;
      k := k + 1;
    }
    forall p | Reaches(m, p)
      ensures false
    {
      SubsetSize(p, Indices(n));
    }
    return None;
  }

  /** One pass of `machinePresses1`'s outer loop: the states one press
      beyond the sound states of level k, unless one of them lights the
      pattern. */
  method NextStates(m: Machine, prev: seq<PressState>, k: nat) returns (cur: seq<PressState>, found: Option<nat>)
    requires forall s :: s in prev ==> Sound(m.buttons, s, k)
    requires Above(m, k)
    ensures found.Some? ==> Fewest(m, found.value)
    ensures found.None? ==> cur == NextLevel(prev, m.buttons) && NoHit(m, cur)
  {
    cur := [];
    for j := 0 to |prev|
      invariant cur == NextLevel(prev[..j], m.buttons)
      invariant NoHit(m, cur)
    {
      var hit;
      cur, hit := ExtendState(m, prev[j], cur);
      if hit.Some? {
        assert prev[j] in prev;
        Found(m, k, prev[j], hit.value);
        return cur, Some(|prev[j].pressed + {hit.value}|);
      }
      assert prev[..j + 1][..j] == prev[..j];
    }
    assert prev[..|prev|] == prev;
    found := None;
  }

  /** The innermost loop of `machinePresses1`: state `s` with each unpressed
      button pressed, appended to `cur0`, or the first button whose press
      lights the pattern. */
  method ExtendState(m: Machine, s: PressState, cur0: seq<PressState>) returns (cur: seq<PressState>, hit: Option<nat>)
    requires NoHit(m, cur0)
    ensures hit.Some? ==> hit.value < |m.buttons| && hit.value !in s.pressed
                          && Xor(s.lit, m.buttons[hit.value]) == m.desired
    ensures hit.None? ==> cur == cur0 + Extend(s, m.buttons, 0) && NoHit(m, cur)
  {
    cur := cur0;
    for i := 0 to |m.buttons|
      invariant cur0 + Extend(s, m.buttons, 0) == cur + Extend(s, m.buttons, i)
      invariant NoHit(m, cur)
    {
      if i !in s.pressed {
        var t := PressState(s.pressed + {i}, Xor(s.lit, m.buttons[i]));
        if t.lit == m.desired {
          return cur, Some(i);
        }
        assert cur + Extend(s, m.buttons, i) == (cur + [t]) + Extend(s, m.buttons, i + 1);
        cur := cur + [t];
      }
    }
    assert cur + [] == cur;
    hit := None;
  }

  /** A match one press beyond a sound state of level k is a
      fewest-presses answer. */
  lemma Found(m: Machine, k: nat, s: PressState, i: nat)
    requires Sound(m.buttons, s, k) && i < |m.buttons| && i !in s.pressed
    requires Above(m, k)
    requires Xor(s.lit, m.buttons[i]) == m.desired
    ensures |s.pressed + {i}| == k + 1 && Fewest(m, k + 1)
  {
    StepSound(m.buttons, k, s, i);
    assert Reaches(m, s.pressed + {i});
  }

  lemma SubsetSize<T>(a: set<T>, b: set<T>)
    requires a <= b
    ensures |a| <= |b|
  {
    assert b == a + (b - a);
  }

  /** Each line parses to the machine at the same position. */
  ghost predicate MachinesOf(lines: seq<string>, ms: seq<Machine>)
  {
    |ms| == |lines| && forall k :: 0 <= k < |lines| ==> MachineOf(lines[k]) == Ok(ms[k])
  }

  /** The loop of `part1` and `part2` that parses every line, stopping at
      the first failure. */
  method ParseMachines(lines: seq<string>) returns (r: Result<seq<Machine>>)
    ensures r.Err? <==> exists k :: 0 <= k < |lines| && MachineOf(lines[k]).Err?
    ensures r.Ok? ==> MachinesOf(lines, r.value)
  {
    var machines: seq<Machine> := [];
    for k := 0 to |lines|
      invariant |machines| == k
      invariant forall k' :: 0 <= k' < k ==> MachineOf(lines[k']) == Ok(machines[k'])
    {
      var m := ParseMachine(lines[k]);
      if m.Err? {
        return Err(m.msg);
      }
      machines := machines + [m.value];
    }
    r := Ok(machines);
  }

  /** Every machine's fewest presses is the count at its position. */
  ghost predicate FewestAll(ms: seq<Machine>, counts: seq<nat>)
  {
    |counts| == |ms| && forall k :: 0 <= k < |ms| ==> Fewest(ms[k], counts[k])
  }

  /** `part1`: the machines are parsed first, then their fewest presses are
      summed. A parse failure is the error; a machine whose pattern cannot
      be lit hangs the program, which is `Ok(None)`. */
  method Part1(lines: seq<string>) returns (r: Result<Option<int>>)
    ensures r.Err? <==> exists k :: 0 <= k < |lines| && MachineOf(lines[k]).Err?
    ensures r.Ok? ==> exists ms :: (MachinesOf(lines, ms)
      && (r.value.Some? ==> exists counts: seq<nat> :: FewestAll(ms, counts) && r.value.value == Sum(counts))
      && (r.value.None? ==> exists k :: 0 <= k < |ms| && !Solvable(ms[k])))
  {
    var parsed := ParseMachines(lines);
    if parsed.Err? {
      return Err(parsed.msg);
    }
    var total := SumPresses(parsed.value);
    r := Ok(total);
  }

  /** The summing loop of `part1`. */
  method SumPresses(machines: seq<Machine>) returns (r: Option<int>)
    ensures r.Some? ==> exists counts: seq<nat> :: FewestAll(machines, counts) && r.value == Sum(counts)
    ensures r.None? ==> exists k :: 0 <= k < |machines| && !Solvable(machines[k])
  {
    var sum := 0;
    ghost var counts: seq<nat> := [];
    for k := 0 to |machines|
      invariant |counts| == k
      invariant forall k' :: 0 <= k' < k ==> Fewest(machines[k'], counts[k'])
      invariant sum == Sum(counts)
    {
      var x := MachinePresses1(machines[k]);
      if x.None? {
        return None;
      }
      assert (counts + [x.value])[..k] == counts;
      counts := counts + [x.value];
      sum := sum + x.value;
    }
    assert FewestAll(machines, counts);
    r := Some(sum);
  }
}
