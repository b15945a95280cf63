/** 2020 day 18: infix expressions over +, *, parentheses and integers,
    evaluated with no precedence (part 1) and with + above * (part 2). */
module Y2020Dec18 {
  import opened Common

  datatype Op = Plus | Times

  datatype Token = Number(value: int) | OpenParen | CloseParen | Operator(op: Op)

  function Apply(o: Op, a: int, b: int): int
  {
    match o
    case Plus => a + b
    case Times => a * b
  }

  // ---------------------------------------------------------------------
  // The tokenizer

  /** Length of the longest prefix of decimal digits. */
  function DigitRun(s: string): (n: nat)
    ensures n <= |s| && AllDigits(s[..n]) && (n == |s| || !IsDigit(s[n]))
    ensures s != [] && IsDigit(s[0]) ==> n >= 1
  {
    if s == [] || !IsDigit(s[0]) then 0
    else
      var m := DigitRun(s[1..]);
      assert s[..m + 1] == [s[0]] + s[1..][..m];
      m + 1
  }

  /** `parse`: one token per maximal digit run and per +, *, ( or ); every
      other character is skipped. */
  function Tokenize(s: string): (r: seq<Token>)
    ensures NonNegative(r)
    decreases |s|
  {
    if s == [] then []
    else if IsDigit(s[0]) then
      var n := DigitRun(s);
      [Number(DigitsValue(s[..n]))] + Tokenize(s[n..])
    else if s[0] == '+' then [Operator(Plus)] + Tokenize(s[1..])
    else if s[0] == '*' then [Operator(Times)] + Tokenize(s[1..])
    else if s[0] == '(' then [OpenParen] + Tokenize(s[1..])
    else if s[0] == ')' then [CloseParen] + Tokenize(s[1..])
    else Tokenize(s[1..])
  }

  predicate NonNegative(ts: seq<Token>)
  {
    forall i :: 0 <= i < |ts| && ts[i].Number? ==> ts[i].value >= 0
  }

  function TokenText(t: Token): string
    requires t.Number? ==> t.value >= 0
  {
    match t
    case Number(v) => NatString(v)
    case OpenParen => "("
    case CloseParen => ")"
    case Operator(o) => if o == Plus then "+" else "*"
  }

  /** The tokens written out, each followed by a space. */
  function Render(ts: seq<Token>): string
    requires NonNegative(ts)
  {
    if ts == [] then "" else TokenText(ts[0]) + " " + Render(ts[1..])
  }

  lemma {:induction false} DigitRunPrefix(d: string, rest: string)
    requires AllDigits(d) && (rest == [] || !IsDigit(rest[0]))
    ensures DigitRun(d + rest) == |d|
    decreases |d|
  {
    if d != [] {
      assert (d + rest)[1..] == d[1..] + rest;
      DigitRunPrefix(d[1..], rest);
    } else {
      assert d + rest == rest;
    }
  }

  lemma SkipSpace(rest: string)
    ensures Tokenize(" " + rest) == Tokenize(rest)
  {
    assert (" " + rest)[1..] == rest;
  }

  lemma TokenizeNumber(v: nat, rest: string)
    ensures Tokenize(NatString(v) + (" " + rest)) == [Number(v)] + Tokenize(rest)
  {
    var d := NatString(v);
    var s := d + (" " + rest);
    NatStringValue(v);
    DigitRunPrefix(d, " " + rest);
    assert s[..|d|] == d && s[|d|..] == " " + rest;
    SkipSpace(rest);
  }

  lemma TokenizeSymbol(t: Token, rest: string)
    requires !t.Number?
    ensures Tokenize(TokenText(t) + (" " + rest)) == [t] + Tokenize(rest)
  {
    var s := TokenText(t) + (" " + rest);
    assert s[1..] == " " + rest;
    SkipSpace(rest);
  }

  /** Tokenizing the written-out tokens gives them back. */
  lemma {:induction false} TokenizeRender(ts: seq<Token>)
    requires NonNegative(ts)
    ensures Tokenize(Render(ts)) == ts
    decreases |ts|
  {
    if ts != [] {
      var rest := Render(ts[1..]);
      TokenizeRender(ts[1..]);
      assert Render(ts) == TokenText(ts[0]) + (" " + rest);
      if ts[0].Number? {
        TokenizeNumber(ts[0].value, rest);
      } else {
        TokenizeSymbol(ts[0], rest);
      }
    }
  }

  // ---------------------------------------------------------------------
  // Well-formed expressions, the reference for both evaluators

  /** An operand: a number or a parenthesised chain. */
  datatype Atom = Lit(n: nat) | Group(c: Chain)

  /** Operands joined by operators, built from the left. */
  datatype Chain = Single(a: Atom) | Extend(init: Chain, op: Op, last: Atom)

  function PrintAtom(a: Atom): seq<Token>
    decreases a
  {
    match a
    case Lit(n) => [Number(n)]
    case Group(c) => [OpenParen] + Print(c) + [CloseParen]
  }

  function Print(c: Chain): seq<Token>
    decreases c
  {
    match c
    case Single(a) => PrintAtom(a)
    case Extend(init, o, a) => Print(init) + [Operator(o)] + PrintAtom(a)
  }

  /** No precedence: operators apply left to right. */
  function AtomValue1(a: Atom): int
    decreases a
  {
    match a
    case Lit(n) => n
    case Group(c) => Value1(c)
  }

  function Value1(c: Chain): int
    decreases c
  {
    match c
    case Single(a) => AtomValue1(a)
    case Extend(init, o, a) => Apply(o, Value1(init), AtomValue1(a))
  }

  /** + above *: the value is the product of the sums of the maximal runs
      joined by +. Groups gives the finished sums and the sum in progress. */
  function AtomValue2(a: Atom): int
    decreases a, 2
  {
    match a
    case Lit(n) => n
    case Group(c) => Value2(c)
  }

  function Groups(c: Chain): (seq<int>, int)
    decreases c, 0
  {
    match c
    case Single(a) => ([], AtomValue2(a))
    case Extend(init, o, a) =>
      var (g, s) := Groups(init);
      if o == Plus then (g, s + AtomValue2(a)) else (g + [s], AtomValue2(a))
  }

  function Value2(c: Chain): int
    decreases c, 1
  {
    var (g, s) := Groups(c);
    Product(g + [s])
  }

  /** * binds loosest: multiplying by one more operand multiplies the value. */
  lemma TimesLoosest(c: Chain, a: Atom)
    ensures Value2(Extend(c, Times, a)) == Value2(c) * AtomValue2(a)
  {
    var (g, s) := Groups(c);
    assert (g + [s] + [AtomValue2(a)])[..|g| + 1] == g + [s];
  }

  /** + binds tighter: in c * a + b the sum a + b is formed first. */
  lemma PlusTighter(c: Chain, a: Atom, b: Atom)
    ensures Value2(Extend(Extend(c, Times, a), Plus, b)) == Value2(c) * (AtomValue2(a) + AtomValue2(b))
  {
    var (g, s) := Groups(c);
    assert Groups(Extend(c, Times, a)) == (g + [s], AtomValue2(a));
    assert Groups(Extend(Extend(c, Times, a), Plus, b)) == (g + [s], AtomValue2(a) + AtomValue2(b));
    assert (g + [s] + [AtomValue2(a) + AtomValue2(b)])[..|g| + 1] == g + [s];
  }

  // ---------------------------------------------------------------------
  // Part 1

  /** `Part1.evaluate` on the remaining tokens, from the running result
      and pending operator: the value and the tokens not consumed. */
  function Eval1(ts: seq<Token>, acc: int, op: Op): (r: (int, seq<Token>))
    ensures |r.1| <= |ts|
    decreases |ts|
  {
    if ts == [] then (acc, [])
    else match ts[0]
      case Number(v) => Eval1(ts[1..], Apply(op, acc, v), op)
      case Operator(o) => Eval1(ts[1..], acc, o)
      case OpenParen =>
        var inner := Eval1(ts[1..], 0, Plus);
        Eval1(inner.1, Apply(op, acc, inner.0), op)
      case CloseParen => (acc, ts[1..])
  }

  /** `Part1.evaluate`: the loop over the shared token iterator, with the
      recursive call for '('. */
  method Evaluate1(ts: seq<Token>, start: nat) returns (value: int, next: nat)
    requires start <= |ts|
    ensures start <= next <= |ts|
    ensures value == Eval1(ts[start..], 0, Plus).0 && ts[next..] == Eval1(ts[start..], 0, Plus).1
    decreases |ts| - start
  {
    var result := 0;
    var operator := Plus;
    var k := start;
    while k < |ts|
      invariant start <= k <= |ts|
      invariant Eval1(ts[k..], result, operator) == Eval1(ts[start..], 0, Plus)
      decreases |ts| - k
    {
      var token := ts[k];
      assert ts[k..][1..] == ts[k + 1..];
      k := k + 1;
      match token {
        case Number(v) => result := Apply(operator, result, v);
        case Operator(o) => operator := o;
        case OpenParen =>
          var v, j := Evaluate1(ts, k);
          result := Apply(operator, result, v);
          k := j;
        case CloseParen =>
          return result, k;
      }
    }
    return result, k;
  }

  function LastOp(c: Chain): Op
  {
    match c
    case Single(_) => Plus
    case Extend(_, o, _) => o
  }

  lemma {:induction false} Atom1(a: Atom, tail: seq<Token>, acc: int, op: Op)
    ensures Eval1(PrintAtom(a) + tail, acc, op) == Eval1(tail, Apply(op, acc, AtomValue1(a)), op)
    decreases a, 1
  {
    match a
    case Lit(n) =>
      assert ([Number(n)] + tail)[1..] == tail;
    case Group(c) =>
      var ts := PrintAtom(a) + tail;
      assert ts[1..] == Print(c) + ([CloseParen] + tail);
      Chain1(c, [CloseParen] + tail);
      assert ([CloseParen] + tail)[1..] == tail;
  }

  /** Evaluating a printed chain from the start state leaves its value
      and its last operator. */
  lemma {:induction false} Chain1(c: Chain, tail: seq<Token>)
    ensures Eval1(Print(c) + tail, 0, Plus) == Eval1(tail, Value1(c), LastOp(c))
    decreases c, 0
  {
    match c
    case Single(a) =>
      Atom1(a, tail, 0, Plus);
    case Extend(init, o, a) =>
      var rest := [Operator(o)] + PrintAtom(a) + tail;
      assert Print(c) + tail == Print(init) + rest;
      Chain1(init, rest);
      assert rest[1..] == PrintAtom(a) + tail;
      Atom1(a, tail, Value1(init), o);
  }

  /** Part 1 evaluates every well-formed line to its left-to-right value,
      consuming all of it. */
  lemma LineValue1(c: Chain)
    ensures Eval1(Print(c), 0, Plus) == (Value1(c), [])
    ensures NonNegative(Print(c)) && Eval1(Tokenize(Render(Print(c))), 0, Plus) == (Value1(c), [])
  {
    Chain1(c, []);
    assert Print(c) + [] == Print(c);
    PrintNonNegative(c);
    TokenizeRender(Print(c));
  }

  lemma {:induction false} AtomNonNegative(a: Atom)
    ensures NonNegative(PrintAtom(a))
    decreases a
  {
    if a.Group? {
      PrintNonNegative(a.c);
    }
  }

  lemma {:induction false} PrintNonNegative(c: Chain)
    ensures NonNegative(Print(c))
    decreases c
  {
    match c
    case Single(a) => AtomNonNegative(a);
    case Extend(init, o, a) =>
      PrintNonNegative(init);
      AtomNonNegative(a);
  }

  function Values1(lines: seq<string>): seq<int>
  {
    seq(|lines|, i requires 0 <= i < |lines| => Eval1(Tokenize(lines[i]), 0, Plus).0)
  }

  /** `Part1.solve`: the sum of the lines' values. */
  method Solve1(lines: seq<string>) returns (total: int)
    ensures total == Sum(Values1(lines))
  {
    total := 0;
    var k := 0;
    while k < |lines|
      invariant 0 <= k <= |lines|
      invariant total == Sum(Values1(lines)[..k])
    {
      var ts := Tokenize(lines[k]);
      var v, _ := Evaluate1(ts, 0);
      assert ts[0..] == ts;
      SumAppend(Values1(lines)[..k], [v]);
      assert Values1(lines)[..k + 1] == Values1(lines)[..k] + [v];
      total := total + v;
      k := k + 1;
    }
    assert Values1(lines)[..k] == Values1(lines);
  }

  function Rendered(cs: seq<Chain>): seq<string>
  {
    seq(|cs|, i requires 0 <= i < |cs| => (PrintNonNegative(cs[i]); Render(Print(cs[i]))))
  }

  /** For lines that are well-formed expressions, part 1 sums their
      left-to-right values. */
  lemma Solve1Meaning(cs: seq<Chain>)
    ensures Values1(Rendered(cs)) == seq(|cs|, i requires 0 <= i < |cs| => Value1(cs[i]))
  {
    forall i | 0 <= i < |cs| ensures Values1(Rendered(cs))[i] == Value1(cs[i]) {
      LineValue1(cs[i]);
    }
  }

  // ---------------------------------------------------------------------
  // Part 2

  /** `accumulate`: a pending + is popped and the sum replaces the top
      number; after a * the value is pushed; with no operator it fails. */
  function Accumulated(ops: seq<Op>, nums: seq<int>, v: int): Result<(seq<Op>, seq<int>)>
  {
    if ops == [] then Err("Accumulating on an empty operator stack")
    else if ops[|ops| - 1] == Times then Ok((ops, nums + [v]))
    else if nums == [] then Err("NoSuchElementException")
    else Ok((ops[..|ops| - 1], nums[..|nums| - 1] + [Apply(Plus, nums[|nums| - 1], v)]))
  }

  /** `calculate`: apply the operators from the top, each to the top two
      numbers, then exactly one number must be left. */
  function Calculated(ops: seq<Op>, nums: seq<int>): Result<int>
    decreases |ops|
  {
    if ops == [] then (if |nums| == 1 then Ok(nums[0]) else Err("Expecting just one number"))
    else if |nums| < 2 then Err("NoSuchElementException")
    else
      var n := |nums|;
      Calculated(ops[..|ops| - 1], nums[..n - 2] + [Apply(ops[|ops| - 1], nums[n - 1], nums[n - 2])])
  }

  method Calculate(ops: seq<Op>, nums: seq<int>) returns (r: Result<int>)
    ensures r == Calculated(ops, nums)
  {
    var operators, numbers := ops, nums;
    while operators != []
      invariant Calculated(operators, numbers) == Calculated(ops, nums)
      decreases |operators|
    {
      if |numbers| < 2 {
        return Err("NoSuchElementException");
      }
      var o := operators[|operators| - 1];
      var n := |numbers|;
      operators := operators[..|operators| - 1];
      numbers := numbers[..n - 2] + [Apply(o, numbers[n - 1], numbers[n - 2])];
    }
    if |numbers| != 1 {
      return Err("Expecting just one number");
    }
    r := Ok(numbers[0]);
  }

  function TimesStack(k: nat): (s: seq<Op>)
    ensures |s| == k && forall i :: 0 <= i < k ==> s[i] == Times
  {
    seq(k, _ => Times)
  }

  /** A stack of k pending * over k + 1 numbers calculates their product. */
  lemma {:induction false} CalculateProduct(g: seq<int>, s: int)
    ensures Calculated(TimesStack(|g|), g + [s]) == Ok(Product(g + [s]))
    decreases |g|
  {
    var nums := g + [s];
    if g == [] {
      assert nums[..0] == [];
    } else {
      var k := |g| - 1;
      var x := g[k];
      var g' := g[..k];
      var t := TimesStack(|g|);
      assert t[..k] == TimesStack(k) && t[k] == Times;
      assert nums[..|nums| - 2] + [Apply(Times, s, x)] == g' + [s * x];
      assert Calculated(t, nums) == Calculated(TimesStack(k), g' + [s * x]);
      CalculateProduct(g', s * x);
      assert Product(g' + [s * x]) == Product(g') * (s * x) by {
        assert (g' + [s * x])[..k] == g';
      }
      assert Product(nums) == Product(g) * s by {
        assert nums[..|nums| - 1] == g;
      }
      assert Product(g) == Product(g') * x;
      Regroup(Product(g'), x, s);
    }
  }

  lemma Regroup(a: int, b: int, c: int)
    ensures (a * b) * c == a * (c * b)
  {
  }

  /** `Part2.evaluate` on the remaining tokens, from the two stacks. */
  function Eval2(ts: seq<Token>, ops: seq<Op>, nums: seq<int>): (r: Result<(int, seq<Token>)>)
    ensures r.Ok? ==> |r.value.1| <= |ts|
    decreases |ts|
  {
    if ts == [] then
      match Calculated(ops, nums)
      case Err(m) => Err(m)
      case Ok(v) => Ok((v, []))
    else match ts[0]
      case Number(v) =>
        (match Accumulated(ops, nums, v)
         case Err(m) => Err(m)
         case Ok(st) => Eval2(ts[1..], st.0, st.1))
      case Operator(o) => Eval2(ts[1..], ops + [o], nums)
      case OpenParen =>
        (match Eval2(ts[1..], [Plus], [0])
         case Err(m) => Err(m)
         case Ok(inner) =>
           match Accumulated(ops, nums, inner.0)
           case Err(m) => Err(m)
           case Ok(st) => Eval2(inner.1, st.0, st.1))
      case CloseParen =>
        match Calculated(ops, nums)
        case Err(m) => Err(m)
        case Ok(v) => Ok((v, ts[1..]))
  }

  /** `Part2.evaluate`: the loop over the shared token iterator with an
      operator stack and a number stack. */
  method Evaluate2(ts: seq<Token>, start: nat) returns (r: Result<(int, nat)>)
    requires start <= |ts|
    ensures r.Err? <==> Eval2(ts[start..], [Plus], [0]).Err?
    ensures r.Ok? ==> (start <= r.value.1 <= |ts| && r.value.0 == Eval2(ts[start..], [Plus], [0]).value.0
      && ts[r.value.1..] == Eval2(ts[start..], [Plus], [0]).value.1)
    decreases |ts| - start
  {
    var operators: seq<Op> := [Plus];
    var numbers: seq<int> := [0];
    var k := start;
    while k < |ts|
      invariant start <= k <= |ts|
      invariant Eval2(ts[k..], operators, numbers) == Eval2(ts[start..], [Plus], [0])
      decreases |ts| - k
    {
      var token := ts[k];
      assert ts[k..][1..] == ts[k + 1..];
      k := k + 1;
      match token {
        case Number(v) =>
          var a := Accumulated(operators, numbers, v);
          if a.Err? {
            return Err(a.msg);
          }
          operators, numbers := a.value.0, a.value.1;
        case Operator(o) =>
          operators := operators + [o];
        case OpenParen =>
          var inner := Evaluate2(ts, k);
          if inner.Err? {
            return Err(inner.msg);
          }
          var a := Accumulated(operators, numbers, inner.value.0);
          if a.Err? {
            return Err(a.msg);
          }
          operators, numbers := a.value.0, a.value.1;
          k := inner.value.1;
        case CloseParen =>
          var c := Calculate(operators, numbers);
          if c.Err? {
            return Err(c.msg);
          }
          return Ok((c.value, k));
      }
    }
    var c := Calculate(operators, numbers);
    if c.Err? {
      return Err(c.msg);
    }
    r := Ok((c.value, k));
  }

  /** The stacks after a prefix of a chain: one * per finished sum, and
      the finished sums below the sum in progress. */
  function Stacks(g: seq<int>, s: int): (seq<Op>, seq<int>)
  {
    (TimesStack(|g|), g + [s])
  }

  function Continue2(a: Result<(seq<Op>, seq<int>)>, tail: seq<Token>): Result<(int, seq<Token>)>
  {
    match a
    case Err(m) => Err(m)
    case Ok(st) => Eval2(tail, st.0, st.1)
  }

  lemma {:induction false} Atom2(a: Atom, tail: seq<Token>, ops: seq<Op>, nums: seq<int>)
    ensures Eval2(PrintAtom(a) + tail, ops, nums) == Continue2(Accumulated(ops, nums, AtomValue2(a)), tail)
    decreases a, 1
  {
    match a
    case Lit(n) =>
      assert ([Number(n)] + tail)[1..] == tail;
    case Group(c) =>
      var ts := PrintAtom(a) + tail;
      assert ts[1..] == Print(c) + ([CloseParen] + tail);
      Chain2(c, [CloseParen] + tail);
      var (g, s) := Groups(c);
      CalculateProduct(g, s);
      assert ([CloseParen] + tail)[1..] == tail;
  }

  lemma AccumulatePlus(g: seq<int>, s: int, v: int)
    ensures Accumulated(TimesStack(|g|) + [Plus], g + [s], v) == Ok(Stacks(g, s + v))
  {
    assert (TimesStack(|g|) + [Plus])[..|g|] == TimesStack(|g|);
    assert (g + [s])[..|g|] == g;
  }

  lemma AccumulateTimes(g: seq<int>, s: int, v: int)
    ensures Accumulated(TimesStack(|g|) + [Times], g + [s], v) == Ok(Stacks(g + [s], v))
  {
    assert TimesStack(|g|) + [Times] == TimesStack(|g| + 1);
  }

  /** Evaluating a printed chain from the start stacks leaves the stacks
      of its finished sums and its sum in progress. */
  lemma {:induction false} Chain2(c: Chain, tail: seq<Token>)
    ensures var (g, s) := Groups(c); Eval2(Print(c) + tail, [Plus], [0]) == Eval2(tail, TimesStack(|g|), g + [s])
    decreases c, 0
  {
    match c
    case Single(a) =>
      Atom2(a, tail, [Plus], [0]);
      assert TimesStack(0) == [];
    case Extend(init, o, a) =>
      var rest := [Operator(o)] + PrintAtom(a) + tail;
      assert Print(c) + tail == Print(init) + rest;
      Chain2(init, rest);
      var (g, s) := Groups(init);
      assert rest[1..] == PrintAtom(a) + tail;
      Atom2(a, tail, TimesStack(|g|) + [o], g + [s]);
      if o == Plus {
        AccumulatePlus(g, s, AtomValue2(a));
      } else {
        AccumulateTimes(g, s, AtomValue2(a));
      }
  }

  /** Part 2 evaluates every well-formed line to its value with + above
      *, consuming all of it. */
  lemma LineValue2(c: Chain)
    ensures Eval2(Print(c), [Plus], [0]) == Ok((Value2(c), []))
    ensures NonNegative(Print(c)) && Eval2(Tokenize(Render(Print(c))), [Plus], [0]) == Ok((Value2(c), []))
  {
    Chain2(c, []);
    assert Print(c) + [] == Print(c);
    var (g, s) := Groups(c);
    CalculateProduct(g, s);
    PrintNonNegative(c);
    TokenizeRender(Print(c));
  }

  /** Two numbers with no operator between them fail in part 2, where
      part 1 adds them. */
  lemma Juxtaposed()
    ensures Eval1([Number(1), Number(2)], 0, Plus).0 == 3
    ensures Eval2([Number(1), Number(2)], [Plus], [0]).Err?
  {
    assert [Number(1), Number(2)][1..] == [Number(2)];
    assert [Number(2)][1..] == [];
  }

  function Values2(lines: seq<string>): Result<seq<int>>
  {
    if lines == [] then Ok([])
    else
      match Values2(lines[..|lines| - 1])
      case Err(m) => Err(m)
      case Ok(vs) =>
        match Eval2(Tokenize(lines[|lines| - 1]), [Plus], [0])
        case Err(m) => Err(m)
        case Ok(v) => Ok(vs + [v.0])
  }

  /** `Part2.solve`: the sum of the lines' values; a failing line fails. */
  method Solve2(lines: seq<string>) returns (r: Result<int>)
    ensures r.Err? <==> Values2(lines).Err?
    ensures r.Ok? ==> r.value == Sum(Values2(lines).value)
  {
    var total := 0;
    var k := 0;
    while k < |lines|
      invariant 0 <= k <= |lines|
      invariant Values2(lines[..k]).Ok? && total == Sum(Values2(lines[..k]).value)
    {
      assert lines[..k + 1][..k] == lines[..k];
      var ts := Tokenize(lines[k]);
      var e := Evaluate2(ts, 0);
      assert ts[0..] == ts;
      if e.Err? {
        Stuck2(lines, k + 1);
        return Err(e.msg);
      }
      SumAppend(Values2(lines[..k]).value, [e.value.0]);
      total := total + e.value.0;
      k := k + 1;
    }
    assert lines[..k] == lines;
    r := Ok(total);
  }

  lemma {:induction false} Stuck2(lines: seq<string>, k: nat)
    requires k <= |lines| && Values2(lines[..k]).Err?
    ensures Values2(lines).Err?
    decreases |lines| - k
  {
    if k < |lines| {
      assert lines[..k + 1][..k] == lines[..k];
      Stuck2(lines, k + 1);
    } else {
      assert lines[..k] == lines;
    }
  }

  /** For lines that are well-formed expressions, part 2 succeeds and sums
      their values with + above *. */
  lemma {:induction false} Solve2Meaning(cs: seq<Chain>)
    ensures Values2(Rendered(cs)).Ok? && |Values2(Rendered(cs)).value| == |cs|
    ensures forall i :: 0 <= i < |cs| ==> Values2(Rendered(cs)).value[i] == Value2(cs[i])
    decreases |cs|
  {
    if cs != [] {
      var n := |cs| - 1;
      var lines := Rendered(cs);
      assert lines[..n] == Rendered(cs[..n]);
      Solve2Meaning(cs[..n]);
      LineValue2(cs[n]);
      assert lines[n] == Render(Print(cs[n]));
      var prev := Values2(lines[..n]).value;
      assert Values2(lines).value == prev + [Value2(cs[n])];
      forall i | 0 <= i < n ensures Values2(lines).value[i] == Value2(cs[i]) {
        assert cs[..n][i] == cs[i];
      }
    }
  }

  /** The puzzle's 1 + 2 * 3 + 4 * 5 + 6: 71 left to right, 231 with +
      first. */
  lemma Example()
    ensures var c := Extend(Extend(Extend(Extend(Extend(Single(Lit(1)), Plus, Lit(2)), Times, Lit(3)), Plus, Lit(4)), Times, Lit(5)), Plus, Lit(6));
      Value1(c) == 71 && Value2(c) == 231
  {
    var c1 := Extend(Single(Lit(1)), Plus, Lit(2));
    var c2 := Extend(c1, Times, Lit(3));
    var c3 := Extend(c2, Plus, Lit(4));
    var c4 := Extend(c3, Times, Lit(5));
    assert Groups(c1) == ([], 3);
    assert [] + [3] == [3] && [3] + [7] == [3, 7];
    assert Groups(c2) == ([3], 3);
    assert Groups(c3) == ([3], 7);
    assert Groups(c4) == ([3, 7], 5);
    assert Groups(Extend(c4, Plus, Lit(6))) == ([3, 7], 11);
    assert [3, 7, 11][..2] == [3, 7] && [3, 7][..1] == [3] && [3][..0] == [];
    assert Product([3]) == 3 && Product([3, 7]) == 21 && Product([3, 7, 11]) == 231;
  }
}
