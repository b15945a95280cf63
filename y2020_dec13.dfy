/** 2020 day 13: the earliest bus after a timestamp, and the Chinese
    remainder assembly of the bus offsets. */
module Y2020Dec13 {
  import opened Common
  import opened Modular

  // ---------------------------------------------------------------------
  // Part1

  /** `it - (myTime % it)`, the wait the source computes for bus b. */
  function Wait(t: int, b: int): int
    requires b != 0
  {
    b - TRem(t, b)
  }

  /** The wait until the first departure at or after t. */
  function WaitFixed(t: int, b: int): int
    requires b != 0
  {
    FloorMod(-t, b)
  }

  function WaitWith(t: int, b: int, fixed: bool): int
    requires b != 0
  {
    if fixed then WaitFixed(t, b) else Wait(t, b)
  }

  predicate NonZero(ids: seq<int>) { forall j :: 0 <= j < |ids| ==> ids[j] != 0 }

  /** `minByOrNull { it.value }`: the first bus whose wait is smallest. */
  function BestIndex(ids: seq<int>, t: int, fixed: bool): (k: nat)
    requires ids != [] && NonZero(ids)
    ensures k < |ids|
    ensures forall j :: 0 <= j < |ids| ==> WaitWith(t, ids[k], fixed) <= WaitWith(t, ids[j], fixed)
    ensures forall j :: 0 <= j < k ==> WaitWith(t, ids[j], fixed) > WaitWith(t, ids[k], fixed)
  {
    if |ids| == 1 then 0
    else
      var k := BestIndex(ids[..|ids| - 1], t, fixed);
      assert ids[..|ids| - 1][k] == ids[k];
      assert forall j :: 0 <= j < |ids| - 1 ==> ids[..|ids| - 1][j] == ids[j];
      if WaitWith(t, ids[|ids| - 1], fixed) < WaitWith(t, ids[k], fixed) then |ids| - 1 else k
  }

  /** `filter { it != "x" }.map(String::toInt)`; a bad number is `None`. */
  function Buses(pieces: seq<string>): Option<seq<int>>
  {
    if pieces == [] then Some([])
    else
      var rest := Buses(pieces[1..]);
      if pieces[0] == "x" then rest
      else if ParseInt(pieces[0]).None? || rest.None? then None
      else Some([ParseInt(pieces[0]).value] + rest.value)
  }

  /** Part1 with either wait: the bus id times its wait. `first()` on no
      lines, `lines[1]` on one line, a bad number, a zero bus (`%` by zero)
      and no bus at all (`!!`) all throw. */
  function Part1With(lines: seq<string>, fixed: bool): Result<int>
  {
    if |lines| == 0 then Err("NoSuchElementException")
    else if ParseInt(lines[0]).None? then Err("NumberFormatException")
    else if |lines| < 2 then Err("IndexOutOfBoundsException")
    else
      var t := ParseInt(lines[0]).value;
      var ids := Buses(SplitOn(lines[1], ','));
      if ids.None? then Err("NumberFormatException")
      else if !NonZero(ids.value) then Err("ArithmeticException")
      else if ids.value == [] then Err("NullPointerException")
      else
        var k := BestIndex(ids.value, t, fixed);
        Ok(ids.value[k] * WaitWith(t, ids.value[k], fixed))
  }

  /** Two lines, a number on the first and a non-empty list of nonzero
      numbers (and "x") on the second. */
  predicate Part1Input(lines: seq<string>)
  {
    |lines| >= 2 && ParseInt(lines[0]).Some? &&
    var ids := Buses(SplitOn(lines[1], ','));
    ids.Some? && ids.value != [] && NonZero(ids.value)
  }

  /** v is some bus id times its wait, no bus waiting less. */
  predicate ShortestWait(ids: seq<int>, t: int, fixed: bool, v: int)
    requires NonZero(ids)
  {
    exists k :: 0 <= k < |ids| && v == ids[k] * WaitWith(t, ids[k], fixed) &&
      forall j :: 0 <= j < |ids| ==> WaitWith(t, ids[k], fixed) <= WaitWith(t, ids[j], fixed)
  }

  /** Part1 as written: an answer exactly on well-formed input, and then a
      bus with the least wait `it - (myTime % it)` times that wait. */
  function Part1(lines: seq<string>): (r: Result<int>)
    ensures lines == [] ==> r == Err("NoSuchElementException")
    ensures r.Ok? <==> Part1Input(lines)
    ensures r.Ok? ==> ShortestWait(Buses(SplitOn(lines[1], ',')).value, ParseInt(lines[0]).value, false, r.value)
  {
    Part1With(lines, false)
  }

  /** Part1 with the wait to the first departure at or after the timestamp. */
  function Part1Fixed(lines: seq<string>): (r: Result<int>)
    ensures lines == [] ==> r == Err("NoSuchElementException")
    ensures r.Ok? <==> Part1Input(lines)
    ensures r.Ok? ==> ShortestWait(Buses(SplitOn(lines[1], ',')).value, ParseInt(lines[0]).value, true, r.value)
  {
    Part1With(lines, true)
  }

  /** The source's wait lands on a departure but lies in 1..b, so a bus
      leaving exactly at t is charged a full period. */
  lemma WaitMeaning(t: int, b: int)
    requires t >= 0 && b > 0
    ensures 1 <= Wait(t, b) <= b && (t + Wait(t, b)) % b == 0
    ensures t % b == 0 ==> Wait(t, b) == b
  {
    assert t == (t / b) * b + t % b;
    assert t + Wait(t, b) == (t / b + 1) * b;
    ModUnique(t + Wait(t, b), b, t / b + 1, 0);
  }

  /** A bus of period b leaves t + w minutes after time 0. */
  predicate Departs(t: int, w: int, b: int)
    requires b > 0
  {
    (t + w) % b == 0
  }

  /** The corrected wait is the least w ≥ 0 with a departure at t + w. */
  lemma WaitFixedMeaning(t: int, b: int)
    requires b > 0
    ensures 0 <= WaitFixed(t, b) < b && Departs(t, WaitFixed(t, b), b)
    ensures forall w :: 0 <= w < WaitFixed(t, b) ==> !Departs(t, w, b)
  {
    var q, w := (-t) / b, (-t) % b;
    assert -t == q * b + w;
    ExactDeparture(t, b, q, w);
    forall w' | 0 <= w' < w ensures !Departs(t, w', b) {
      EarlierDeparture(t, b, q, w, w');
    }
  }

  lemma ExactDeparture(t: int, b: int, q: int, w: int)
    requires b > 0 && -t == q * b + w
    ensures (t + w) % b == 0
  {
    assert t + w == (-q) * b + 0;
    ModUnique(t + w, b, -q, 0);
  }

  lemma EarlierDeparture(t: int, b: int, q: int, w: int, w': int)
    requires b > 0 && -t == q * b + w && 0 <= w' < w < b
    ensures (t + w') % b != 0
  {
    assert (-q - 1) * b == -(q * b) - b;
    assert t + w' == (-q - 1) * b + (b - w + w');
    ModUnique(t + w', b, -q - 1, b - w + w');
  }

  /** Timestamp 10 with buses 5 and 7: bus 5 leaves at 10, but the source
      charges it 5 minutes and picks bus 7 (4 minutes), answering 28; the
      corrected wait answers 5 × 0 = 0. */
  lemma DepartureAtArrival()
    ensures Part1(["10", "5,7"]) == Ok(28)
    ensures Part1Fixed(["10", "5,7"]) == Ok(0)
  {
    var lines := ["10", "5,7"];
    ExampleInput();
    assert lines[0] == "10" && lines[1] == "5,7";
    assert Wait(10, 5) == 5 && Wait(10, 7) == 4;
    assert WaitFixed(10, 5) == 0 && WaitFixed(10, 7) == 4;
    assert BestIndex([5, 7], 10, false) == 1 && BestIndex([5, 7], 10, true) == 0;
    assert Part1With(lines, false) == Ok(28);
    assert Part1With(lines, true) == Ok(0);
  }

  lemma ExampleInput()
    ensures ParseInt("10") == Some(10)
    ensures Buses(SplitOn("5,7", ',')) == Some([5, 7])
  {
    assert ParseInt("10") == Some(10) by { ParseIntString(10); assert IntString(10) == "10"; }
    assert SplitOn("5,7", ',') == ["5", "7"] by {
      SplitNoSep("7", ',');
      SplitAppendSep("5", "7", ',');
      assert "5" + [','] + "7" == "5,7";
    }
    ExampleBuses();
  }

  lemma ExampleBuses()
    ensures Buses(["5", "7"]) == Some([5, 7])
  {
    assert ParseInt("5") == Some(5) by { ParseIntString(5); assert IntString(5) == "5"; }
    assert ParseInt("7") == Some(7) by { ParseIntString(7); assert IntString(7) == "7"; }
    assert "5" != "x" && "7" != "x" by { assert "5"[0] != "x"[0] && "7"[0] != "x"[0]; }
    assert ["5", "7"][1..] == ["7"];
    assert Buses(["7"]) == Some([7]) by {
      assert ["7"][1..] == [];
      assert Buses([]) == Some([]);
      assert [7] + [] == [7];
      assert ParseInt(["7"][0]).value == 7;
    }
    assert [5] + [7] == [5, 7];
    assert ParseInt(["5", "7"][0]).value == 5;
  }


  // ---------------------------------------------------------------------
  // Bezout coefficients

  /** The last nonzero remainder of Euclid's algorithm with Kotlin's `%`. */
  function EuclidLast(a: int, b: int): int
    requires b != 0
    decreases Abs(b)
  {
    TDivRem(a, b);
    if TRem(a, b) == 0 then b else EuclidLast(b, TRem(a, b))
  }

  /** It divides both arguments. */
  lemma {:induction false} EuclidLastDivides(a: int, b: int)
    requires b != 0
    ensures Divides(EuclidLast(a, b), a) && Divides(EuclidLast(a, b), b)
    decreases Abs(b)
  {
    TDivRem(a, b);
    var q, r := TDiv(a, b), TRem(a, b);
    if r == 0 {
      DividesMultiple(b, 1);
      DividesMultiple(b, q);
    } else {
      EuclidLastDivides(b, r);
      DividesCombination(EuclidLast(b, r), b, r, q, 1);
    }
  }

  /** Every common divisor divides it, so it is the greatest common divisor
      up to sign. */
  lemma {:induction false} EuclidLastGreatest(d: int, a: int, b: int)
    requires b != 0 && Divides(d, a) && Divides(d, b)
    ensures Divides(d, EuclidLast(a, b))
    decreases Abs(b)
  {
    TDivRem(a, b);
    var q, r := TDiv(a, b), TRem(a, b);
    if r != 0 {
      DividesCombination(d, a, b, 1, -q);
      RemainderCombination(a, b, q, r);
      EuclidLastGreatest(d, b, r);
    }
  }

  lemma RemainderCombination(a: int, b: int, q: int, r: int)
    requires a == q * b + r
    ensures 1 * a + (-q) * b == r
  {
    assert (-q) * b == -(q * b);
  }

  /** For a ≥ 0 and b > 0 it is positive. */
  lemma {:induction false} EuclidLastPositive(a: int, b: int)
    requires a >= 0 && b > 0
    ensures EuclidLast(a, b) > 0
    decreases b
  {
    TDivRem(a, b);
    if TRem(a, b) != 0 {
      EuclidLastPositive(b, TRem(a, b));
    }
  }

  lemma CombinationStep(x: int, y: int, s0: int, t0: int, r0: int, s1: int, t1: int, r1: int, q: int)
    requires s0 * x + t0 * y == r0 && s1 * x + t1 * y == r1
    ensures (s0 - q * s1) * x + (t0 - q * t1) * y == r0 - q * r1
  {
    calc {
      (s0 - q * s1) * x + (t0 - q * t1) * y;
      (s0 * x + t0 * y) - q * (s1 * x + t1 * y);
    }
  }

  /** `bezoutCoefficients`: the extended Euclidean algorithm, keeping
      s0·x + t0·y = r0 and s1·x + t1·y = r1. A zero y throws at the first
      division; otherwise the result combines x and y into the last nonzero
      remainder. */
  method Bezout(x: int, y: int) returns (r: Result<(int, int)>)
    ensures r.Err? <==> y == 0
    ensures r.Ok? ==> r.value.0 * x + r.value.1 * y == EuclidLast(x, y)
  {
    if y == 0 {
      return Err("ArithmeticException: / by zero");
    }
    var r0, r1 := x, y;
    var s0, s1 := 1, 0;
    var t0, t1 := 0, 1;
    while true
      invariant r1 != 0
      invariant s0 * x + t0 * y == r0 && s1 * x + t1 * y == r1
      invariant EuclidLast(r0, r1) == EuclidLast(x, y)
      decreases Abs(r1)
    {
      TDivRem(r0, r1);
      var q := TDiv(r0, r1);
      var rem := TRem(r0, r1);
      CombinationStep(x, y, s0, t0, r0, s1, t1, r1, q);
      var s := s0 - q * s1;
      var t := t0 - q * t1;
      if rem == 0 {
        return Ok((s1, t1));
      }
      r0, r1 := r1, rem;
      s0, s1 := s1, s;
      t0, t1 := t1, t;
    }
  }

  // ---------------------------------------------------------------------
  // Part2

  /** A bus of the second line: its position, its period and the remainder
      `base - (position % base)` (0 at position 0). */
  datatype Bus = Bus(index: nat, rem: int, base: int)

  /** The `mapIndexed`/`filter`/`map` pipeline from position i on; a bad
      number, or a zero period past position 0, throws. */
  function Pairs(pieces: seq<string>, i: nat): Result<seq<Bus>>
    decreases |pieces| - i
  {
    if i >= |pieces| then Ok([])
    else
      var rest := Pairs(pieces, i + 1);
      if pieces[i] == "x" then rest
      else if ParseInt(pieces[i]).None? then Err("NumberFormatException")
      else
        var base := ParseInt(pieces[i]).value;
        if i != 0 && base == 0 then Err("ArithmeticException")
        else if rest.Err? then rest
        else Ok([Bus(i, if i == 0 then 0 else base - TRem(i, base), base)] + rest.value)
  }

  function Bases(ps: seq<Bus>): (bs: seq<int>)
    ensures |bs| == |ps| && forall k :: 0 <= k < |ps| ==> bs[k] == ps[k].base
  {
    if ps == [] then [] else Bases(ps[..|ps| - 1]) + [ps[|ps| - 1].base]
  }

  /** What a bus of the list records: a number at its position, and a
      remainder that puts a departure `index` minutes after it. */
  predicate BusOk(pieces: seq<string>, i: nat, bus: Bus)
  {
    i <= bus.index < |pieces| && ParseInt(pieces[bus.index]) == Some(bus.base) &&
    (bus.base > 0 ==> (bus.rem + bus.index) % bus.base == 0)
  }

  /** Every bus of `Pairs` is one of the second line's numbers, and its
      remainder puts its departure `index` minutes after the remainder. */
  lemma {:induction false} PairsMeaning(pieces: seq<string>, i: nat)
    requires Pairs(pieces, i).Ok?
    ensures forall k :: 0 <= k < |Pairs(pieces, i).value| ==> BusOk(pieces, i, Pairs(pieces, i).value[k])
    decreases |pieces| - i
  {
    if i < |pieces| {
      var rest := Pairs(pieces, i + 1);
      if pieces[i] == "x" {
        PairsMeaning(pieces, i + 1);
        forall k | 0 <= k < |rest.value| ensures BusOk(pieces, i, rest.value[k]) {
          assert BusOk(pieces, i + 1, rest.value[k]);
        }
      } else {
        var base := ParseInt(pieces[i]).value;
        PairsMeaning(pieces, i + 1);
        var bus := Bus(i, if i == 0 then 0 else base - TRem(i, base), base);
        if i != 0 && base > 0 {
          RemainderMeaning(i, base);
        }
        assert BusOk(pieces, i, bus);
        var all := Pairs(pieces, i).value;
        assert all == [bus] + rest.value;
        forall k | 0 <= k < |all| ensures BusOk(pieces, i, all[k]) {
          if k > 0 {
            assert all[k] == rest.value[k - 1];
            assert BusOk(pieces, i + 1, rest.value[k - 1]);
          }
        }
      }
    }
  }

  lemma RemainderMeaning(i: nat, base: int)
    requires base > 0
    ensures (base - TRem(i, base) + i) % base == 0
  {
    assert i == (i / base) * base + i % base;
    assert base - TRem(i, base) + i == (i / base + 1) * base;
    ModUnique(base - TRem(i, base) + i, base, i / base + 1, 0);
  }

  lemma {:induction false} ProductAppend(a: seq<int>, b: seq<int>)
    ensures Product(a + b) == Product(a) * Product(b)
  {
    if b != [] {
      assert (a + b)[..|a + b| - 1] == a + b[..|b| - 1];
      ProductAppend(a, b[..|b| - 1]);
    } else {
      assert a + b == a;
    }
  }

  lemma {:induction false} ProductPositive(s: seq<int>)
    requires forall k :: 0 <= k < |s| ==> s[k] > 0
    ensures Product(s) > 0
  {
    if s != [] {
      ProductPositive(s[..|s| - 1]);
    }
  }

  function ProductExcept(s: seq<int>, k: nat): int
    requires k < |s|
  {
    Product(s[..k] + s[k + 1..])
  }

  lemma ProductAround(s: seq<int>, k: nat)
    requires k < |s|
    ensures Product(s) == Product(s[..k]) * s[k] * Product(s[k + 1..])
  {
    var a, x, b := s[..k], s[k], s[k + 1..];
    assert s == (a + [x]) + b;
    ProductAppend(a + [x], b);
    ProductAppend(a, [x]);
    assert Product([x]) == x by { assert [x][..0] == []; }
    assert Product(a + [x]) == Product(a) * x;
  }

  lemma MulSwap(a: int, b: int, c: int)
    ensures a * b * c == (a * c) * b
  {
  }

  lemma TDivExact(c: int, b: int)
    requires c > 0 && b > 0
    ensures c * b > 0 && TDiv(c * b, b) == c
  {
    MulAtLeast(c, b);
    ModUnique(c * b, b, c, 0);
  }

  lemma ExceptPositive(s: seq<int>, k: nat)
    requires k < |s| && forall j :: 0 <= j < |s| ==> s[j] > 0
    ensures ProductExcept(s, k) > 0
  {
    var rest := s[..k] + s[k + 1..];
    forall j | 0 <= j < |rest| ensures rest[j] > 0 {
      if j < k {
        assert rest[j] == s[j];
      } else {
        assert rest[j] == s[j + 1];
      }
    }
    ProductPositive(rest);
  }

  /** The product is the k-th factor times the others, and the source's
      `product / it.second` is that complementary product. */
  lemma ProductSplit(s: seq<int>, k: nat)
    requires k < |s| && forall j :: 0 <= j < |s| ==> s[j] > 0
    ensures Product(s) == ProductExcept(s, k) * s[k]
    ensures TDiv(Product(s), s[k]) == ProductExcept(s, k)
  {
    ProductAround(s, k);
    ProductAppend(s[..k], s[k + 1..]);
    MulSwap(Product(s[..k]), s[k], Product(s[k + 1..]));
    ExceptPositive(s, k);
    TDivExact(ProductExcept(s, k), s[k]);
  }

  /** Every factor divides a product. */
  lemma ProductFactor(s: seq<int>, j: nat)
    requires j < |s| && s[j] != 0
    ensures Divides(s[j], Product(s))
  {
    ProductAround(s, j);
    MulSwap(Product(s[..j]), s[j], Product(s[j + 1..]));
    DividesMultiple(s[j], Product(s[..j]) * Product(s[j + 1..]));
  }

  /** Another bus's period divides the complementary product of bus k. */
  lemma OtherFactor(s: seq<int>, k: nat, i: nat)
    requires k < |s| && i < |s| && i != k && s[i] != 0
    ensures Divides(s[i], ProductExcept(s, k))
  {
    var rest := s[..k] + s[k + 1..];
    if i < k {
      assert rest[i] == s[i];
      ProductFactor(rest, i);
    } else {
      assert rest[i - 1] == s[i];
      ProductFactor(rest, i - 1);
    }
  }

  predicate AllPositive(ps: seq<Bus>) { forall k :: 0 <= k < |ps| ==> ps[k].base > 0 }

  /** Each period is coprime to the product of the others, as the Bezout
      step finds it: the combination it returns is 1. */
  ghost predicate UnitBezout(ps: seq<Bus>)
  {
    var p := Product(Bases(ps));
    forall k :: 0 <= k < |ps| ==>
      ps[k].base != 0 && TDiv(p, ps[k].base) != 0 && EuclidLast(ps[k].base, TDiv(p, ps[k].base)) == 1
  }

  /** a and b share no divisor above 1. */
  ghost predicate Coprime(a: int, b: int)
  {
    forall d :: d > 1 ==> !(Divides(d, a) && Divides(d, b))
  }

  /** Any two periods are coprime. */
  ghost predicate PairwiseCoprime(ps: seq<Bus>)
  {
    forall i, j :: 0 <= i < |ps| && 0 <= j < |ps| && i != j ==> Coprime(ps[i].base, ps[j].base)
  }

  /** Euclid's last remainder is a combination of its arguments. */
  lemma {:induction false} EuclidCombination(a: int, b: int) returns (s: int, t: int)
    requires b != 0
    ensures s * a + t * b == EuclidLast(a, b)
    decreases Abs(b)
  {
    TDivRem(a, b);
    var q, r := TDiv(a, b), TRem(a, b);
    if r == 0 {
      s, t := 0, 1;
    } else {
      var s', t' := EuclidCombination(b, r);
      s, t := t', s' - t' * q;
      SwapCombination(a, b, q, r, s', t', EuclidLast(b, r));
    }
  }

  /** A combination of b and a - q·b is one of a and b. */
  lemma SwapCombination(a: int, b: int, q: int, r: int, s: int, t: int, e: int)
    requires a == q * b + r && s * b + t * r == e
    ensures t * a + (s - t * q) * b == e
  {
    calc {
      t * a + (s - t * q) * b;
      t * (q * b + r) + s * b - (t * q) * b;
      { assert t * (q * b + r) == (t * q) * b + t * r; }
      s * b + t * r;
    }
  }

  /** For coprime positive a and b, Euclid's last remainder is 1. */
  lemma CoprimeEuclid(a: int, b: int)
    requires a > 0 && b > 0 && Coprime(a, b)
    ensures EuclidLast(a, b) == 1
  {
    EuclidLastPositive(a, b);
    EuclidLastDivides(a, b);
  }

  /** Only 1 and -1 divide 1. */
  lemma DividesOne(d: int)
    requires Divides(d, 1)
    ensures d == 1 || d == -1
  {
    var m := Abs(d);
    DividesWitness(d, 1);
    var k := 1 / m;
    assert k != 0;
    MulAtLeast(k, m);
  }

  /** Numbers with a combination equal to 1 share no divisor above 1. */
  lemma UnitCombination(a: int, b: int, u: int, v: int)
    requires u * a + v * b == 1
    ensures Coprime(a, b)
  {
    forall d | Divides(d, a) && Divides(d, b) ensures d == 1 || d == -1 {
      DividesCombination(d, a, b, u, v);
      DividesOne(d);
    }
  }

  lemma CoprimeMul(a: int, x: int, y: int)
    requires a > 0 && x > 0 && y > 0 && Coprime(a, x) && Coprime(a, y)
    ensures Coprime(a, x * y)
  {
    CoprimeEuclid(a, x);
    CoprimeEuclid(a, y);
    var s1, t1 := EuclidCombination(a, x);
    var s2, t2 := EuclidCombination(a, y);
    ScaleCombination(a, y, x, s2, t2);
    // a common divisor of a and x·y divides x, and so divides 1
    forall d | Divides(d, a) && Divides(d, x * y) ensures d == 1 || d == -1 {
      DividesCombination(d, a, x * y, s2 * x, t2);
      DividesCombination(d, a, x, s1, t1);
      DividesOne(d);
    }
  }

  lemma ScaleCombination(a: int, y: int, x: int, s: int, t: int)
    requires s * a + t * y == 1
    ensures (s * x) * a + t * (x * y) == x
  {
    calc {
      (s * x) * a + t * (x * y);
      x * (s * a) + x * (t * y);
      x * (s * a + t * y);
    }
  }

  /** A number coprime to each of some positive numbers is coprime to their
      product. */
  lemma {:induction false} CoprimeProduct(a: int, s: seq<int>)
    requires a > 0 && forall j :: 0 <= j < |s| ==> s[j] > 0 && Coprime(a, s[j])
    ensures Product(s) > 0 && Coprime(a, Product(s))
  {
    if s == [] {
      UnitCombination(a, 1, 0, 1);
    } else {
      var init := s[..|s| - 1];
      CoprimeProduct(a, init);
      CoprimeMul(a, Product(init), s[|s| - 1]);
    }
  }

  /** Pairwise coprime positive periods are what the Bezout step needs:
      each period's combination with the product of the others is 1. */
  lemma CoprimeUnitBezout(ps: seq<Bus>)
    requires AllPositive(ps) && PairwiseCoprime(ps)
    ensures UnitBezout(ps)
  {
    var bs := Bases(ps);
    forall k | 0 <= k < |ps|
      ensures TDiv(Product(bs), ps[k].base) != 0 && EuclidLast(ps[k].base, TDiv(Product(bs), ps[k].base)) == 1
    {
      ProductSplit(bs, k);
      var rest := bs[..k] + bs[k + 1..];
      forall j | 0 <= j < |rest| ensures rest[j] > 0 && Coprime(bs[k], rest[j]) {
        if j < k {
          assert rest[j] == bs[j];
        } else {
          assert rest[j] == bs[j + 1];
        }
      }
      CoprimeProduct(bs[k], rest);
      CoprimeEuclid(bs[k], ProductExcept(bs, k));
    }
  }

  lemma AddMod(x: int, y: int, m: int)
    requires m > 0
    ensures (x + y) % m == (x % m + y % m) % m
  {
    assert x + y == (x % m + y % m) + (x / m + y / m) * m;
    AddMultiple(x % m + y % m, x / m + y / m, m);
  }

  /** The term of bus k is ≡ rem_k modulo its own period. */
  lemma OwnTerm(rem: int, s: int, t: int, b: int, q: int)
    requires b > 0 && s * b + t * q == 1
    ensures (rem * t * q) % b == rem % b
  {
    assert rem * t * q == rem + (-rem * s) * b;
    AddMultiple(rem, -rem * s, b);
  }

  /** ... and ≡ 0 modulo every other period. */
  lemma OtherTerm(rem: int, t: int, q: int, b: int)
    requires b > 0 && Divides(b, q)
    ensures (rem * t * q) % b == 0
  {
    DividesCombination(b, q, q, rem * t, 0);
    assert rem * t * q == (rem * t) * q + 0 * q;
  }

  /** After the terms of the first k buses, the sum is ≡ rem_i modulo the
      period of each bus i < k and ≡ 0 modulo the others. */
  ghost predicate SumSoFar(ps: seq<Bus>, k: nat, sum: int)
  {
    forall i :: 0 <= i < |ps| && ps[i].base > 0 ==>
      sum % ps[i].base == (if i < k then ps[i].rem % ps[i].base else 0)
  }

  lemma SumStepOwn(sum: int, rem: int, s: int, t: int, q: int, b: int)
    requires b > 0 && sum % b == 0 && s * b + t * q == 1
    ensures (sum + rem * t * q) % b == rem % b
  {
    AddMod(sum, rem * t * q, b);
    OwnTerm(rem, s, t, b, q);
    assert (sum % b + (rem * t * q) % b) % b == (rem % b) % b;
    ModOfMod(rem, b);
  }

  lemma ModOfMod(x: int, m: int)
    requires m > 0
    ensures (x % m) % m == x % m
  {
    ModUnique(x % m, m, 0, x % m);
  }

  lemma SumStepOther(sum: int, rem: int, t: int, q: int, b: int)
    requires b > 0 && Divides(b, q)
    ensures (sum + rem * t * q) % b == sum % b
  {
    AddMod(sum, rem * t * q, b);
    OtherTerm(rem, t, q, b);
    assert (sum % b + (rem * t * q) % b) % b == (sum % b) % b;
    ModOfMod(sum, b);
  }

  lemma SumStepAt(ps: seq<Bus>, k: nat, sum: int, s: int, t: int, q: int, i: nat)
    requires k < |ps| && i < |ps| && AllPositive(ps)
    requires sum % ps[i].base == (if i < k then ps[i].rem % ps[i].base else 0)
    requires q == ProductExcept(Bases(ps), k) && s * ps[k].base + t * q == 1
    ensures (sum + ps[k].rem * t * q) % ps[i].base == (if i < k + 1 then ps[i].rem % ps[i].base else 0)
  {
    var b, rem := ps[i].base, ps[k].rem;
    if i == k {
      SumStepOwn(sum, rem, s, t, q, b);
    } else {
      assert Bases(ps)[i] == b;
      OtherFactor(Bases(ps), k, i);
      SumStepOther(sum, rem, t, q, b);
    }
  }

  lemma SumStep(ps: seq<Bus>, k: nat, sum: int, s: int, t: int, q: int)
    requires k < |ps| && AllPositive(ps) && SumSoFar(ps, k, sum)
    requires q == ProductExcept(Bases(ps), k) && s * ps[k].base + t * q == 1
    ensures SumSoFar(ps, k + 1, sum + ps[k].rem * t * q)
  {
    forall i | 0 <= i < |ps| && ps[i].base > 0
      ensures (sum + ps[k].rem * t * q) % ps[i].base == (if i < k + 1 then ps[i].rem % ps[i].base else 0)
    {
      SumStepAt(ps, k, sum, s, t, q, i);
    }
  }

  lemma ReduceAt(sum: int, p: int, c: int, b: int)
    requires b > 0 && p > 0 && p == c * b
    ensures FloorMod(sum, p) % b == sum % b
  {
    assert sum == (sum / p) * p + sum % p;
    assert (sum / p) * p == ((sum / p) * c) * b;
    assert FloorMod(sum, p) == sum + (-(sum / p) * c) * b;
    AddMultiple(sum, -(sum / p) * c, b);
  }

  lemma ReduceByProduct(ps: seq<Bus>, sum: int)
    requires ps != [] && AllPositive(ps) && SumSoFar(ps, |ps|, sum)
    ensures Product(Bases(ps)) > 0
    ensures forall i :: 0 <= i < |ps| ==> FloorMod(sum, Product(Bases(ps))) % ps[i].base == ps[i].rem % ps[i].base
  {
    var bs := Bases(ps);
    ProductPositive(bs);
    forall i | 0 <= i < |ps| ensures FloorMod(sum, Product(bs)) % ps[i].base == ps[i].rem % ps[i].base {
      ProductSplit(bs, i);
      ReduceAt(sum, Product(bs), ProductExcept(bs, i), ps[i].base);
    }
  }

  /** The product, the sum of rem·t·(product / base) over the buses with
      (s, t) the Bezout coefficients of (base, product / base), and
      `floorMod(sum, product)`. No bus throws at `reduce`; a zero period
      throws at the division. When every period is positive and coprime to
      the product of the others, the result is the Chinese remainder: in
      0..product-1 and ≡ rem modulo each period. */
  method Assemble(ps: seq<Bus>) returns (r: Result<int>)
    ensures ps == [] ==> r.Err?
    ensures (exists k :: 0 <= k < |ps| && ps[k].base == 0) ==> r.Err?
    ensures ps != [] && AllPositive(ps) && UnitBezout(ps) ==> (r.Ok? &&
      0 <= r.value < Product(Bases(ps)) &&
      forall i :: 0 <= i < |ps| ==> r.value % ps[i].base == ps[i].rem % ps[i].base)
    ensures ps != [] && AllPositive(ps) && PairwiseCoprime(ps) ==> (r.Ok? &&
      0 <= r.value < Product(Bases(ps)) &&
      forall i :: 0 <= i < |ps| ==> r.value % ps[i].base == ps[i].rem % ps[i].base)
  {
    if ps != [] && AllPositive(ps) && PairwiseCoprime(ps) {
      CoprimeUnitBezout(ps);
    }
    if ps == [] {
      return Err("Empty collection can't be reduced.");
    }
    var bases := Bases(ps);
    var product := Product(bases);
    var sum := SumTerms(ps, product);
    if sum.Err? {
      return Err(sum.msg);
    }
    NonZeroProduct(bases);
    if AllPositive(ps) && UnitBezout(ps) {
      ReduceByProduct(ps, sum.value);
    }
    r := Ok(FloorMod(sum.value, product));
  }

  /** The sum of rem·t·(product / base) over the buses, (s, t) being the
      Bezout coefficients of (base, product / base). A zero period throws
      at the division; under `UnitBezout` the sum is ≡ rem modulo each
      period. */
  method SumTerms(ps: seq<Bus>, product: int) returns (r: Result<int>)
    requires product == Product(Bases(ps))
    ensures (exists k :: 0 <= k < |ps| && ps[k].base == 0) ==> r.Err?
    ensures r.Ok? ==> forall k :: 0 <= k < |ps| ==> ps[k].base != 0
    ensures AllPositive(ps) && UnitBezout(ps) ==> r.Ok? && SumSoFar(ps, |ps|, r.value)
  {
    ghost var unit := AllPositive(ps) && UnitBezout(ps);
    var sum := 0;
    var k := 0;
    while k < |ps|
      invariant 0 <= k <= |ps|
      invariant forall j :: 0 <= j < k ==> ps[j].base != 0
      invariant unit ==> SumSoFar(ps, k, sum)
    {
      var base := ps[k].base;
      if base == 0 {
        return Err("ArithmeticException: / by zero");
      }
      var q := TDiv(product, base);
      var coeff := Bezout(base, q);
      if coeff.Err? {
        return Err(coeff.msg);
      }
      if unit {
        ProductSplit(Bases(ps), k);
        SumStep(ps, k, sum, coeff.value.0, coeff.value.1, q);
      }
      sum := sum + ps[k].rem * coeff.value.1 * q;
      k := k + 1;
    }
    r := Ok(sum);
  }

  lemma {:induction false} NonZeroProduct(s: seq<int>)
    requires forall k :: 0 <= k < |s| ==> s[k] != 0
    ensures Product(s) != 0
  {
    if s != [] {
      NonZeroProduct(s[..|s| - 1]);
    }
  }

  lemma SameDeparture(x: int, rem: int, i: int, b: int)
    requires b > 0 && x % b == rem % b && (rem + i) % b == 0
    ensures (x + i) % b == 0
  {
    AddMod(x, i, b);
    AddMod(rem, i, b);
  }

  lemma Departures(pieces: seq<string>, ps: seq<Bus>, x: int)
    requires Pairs(pieces, 0) == Ok(ps) && AllPositive(ps)
    requires forall i :: 0 <= i < |ps| ==> x % ps[i].base == ps[i].rem % ps[i].base
    ensures forall i :: 0 <= i < |ps| ==> (x + ps[i].index) % ps[i].base == 0
  {
    PairsMeaning(pieces, 0);
    forall i | 0 <= i < |ps| ensures (x + ps[i].index) % ps[i].base == 0 {
      assert BusOk(pieces, 0, ps[i]);
      SameDeparture(x, ps[i].rem, ps[i].index, ps[i].base);
    }
  }

  /** When the periods are positive and pairwise coprime, a result
      congruent to every remainder makes each bus leave at its position. */
  lemma CoprimeDepartures(pieces: seq<string>, ps: seq<Bus>, r: Result<int>)
    requires Pairs(pieces, 0) == Ok(ps)
    requires ps != [] && AllPositive(ps) && PairwiseCoprime(ps) ==> (r.Ok? &&
      forall i :: 0 <= i < |ps| ==> r.value % ps[i].base == ps[i].rem % ps[i].base)
    ensures ps != [] && AllPositive(ps) && PairwiseCoprime(ps) ==>
      r.Ok? && forall i :: 0 <= i < |ps| ==> (r.value + ps[i].index) % ps[i].base == 0
  {
    if ps != [] && AllPositive(ps) && PairwiseCoprime(ps) {
      Departures(pieces, ps, r.value);
    }
  }

  /** Part2 on the numbers of the bus line: a bad entry is an error; with
      positive, pairwise coprime periods, bus i leaves exactly i minutes
      after the result. */
  method Part2Pieces(pieces: seq<string>) returns (r: Result<int>)
    ensures Pairs(pieces, 0).Err? ==> r.Err?
    ensures var ps := Pairs(pieces, 0);
      ps.Ok? && ps.value != [] && AllPositive(ps.value) && PairwiseCoprime(ps.value) ==>
        r.Ok? && forall i :: 0 <= i < |ps.value| ==> (r.value + ps.value[i].index) % ps.value[i].base == 0
  {
    var ps := Pairs(pieces, 0);
    if ps.Err? {
      return Err(ps.msg);
    }
    r := Assemble(ps.value);
    CoprimeDepartures(pieces, ps.value, r);
  }

  /** Part2 on the bus line, split at commas. */
  method Part2(input: string) returns (r: Result<int>)
    ensures Pairs(SplitOn(input, ','), 0).Err? ==> r.Err?
    ensures var ps := Pairs(SplitOn(input, ','), 0);
      ps.Ok? && ps.value != [] && AllPositive(ps.value) && PairwiseCoprime(ps.value) ==>
        r.Ok? && forall i :: 0 <= i < |ps.value| ==> (r.value + ps.value[i].index) % ps.value[i].base == 0
  {
    r := Part2Pieces(SplitOn(input, ','));
  }
}
