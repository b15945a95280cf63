/** 2021 day 24: the fourteen-digit model numbers, read as base-9 numbers
    whose digits are one less than the model number's digits. */
module Y2021Day24 {
  import opened Common
  import Modular

  /** `Input`, Go's `[14]int`. */
  type Input = s: seq<int> | |s| == 14 witness [1, 1, 1, 1, 1, 1, 1, 1, 1, 1, 1, 1, 1, 1]

  function Pow9(n: nat): (p: int)
    ensures p >= 1
  {
    if n == 0 then 1 else 9 * Pow9(n - 1)
  }

  /** The low n base-9 digits of val, each plus one, most significant first. */
  function Encode(val: nat, n: nat): (s: seq<int>)
    ensures |s| == n
  {
    if n == 0 then [] else Encode(val / 9, n - 1) + [val % 9 + 1]
  }

  /** `Int`: the digits read as a base-9 number of the digits less one. */
  function Value(s: seq<int>): int
  {
    if s == [] then 0 else 9 * Value(s[..|s| - 1]) + (s[|s| - 1] - 1)
  }

  predicate Digits(s: seq<int>)
  {
    forall i :: 0 <= i < |s| ==> 1 <= s[i] <= 9
  }

  /** `NewInput`: a negative value panics; otherwise the loop fills the
      array from the back, one base-9 digit of `d` at a time, and the digits
      above the fourteenth are dropped. */
  method NewInput(val: int) returns (r: Result<Input>)
    ensures r.Err? <==> val < 0
    ensures r.Ok? ==> r.value == Encode(val, 14)
  {
    if val < 0 {
      return Err("Negative input value");
    }
    var v: seq<int> := seq(14, _ => 0);
    var d: nat := val;
    for i := 1 to 15
      invariant |v| == 14 && Encode(val, 14) == Encode(d, 15 - i) + v[15 - i..]
    {
      ghost var rest := v[15 - i..];
      v := v[14 - i := d % 9 + 1];
      assert v[14 - i..] == [d % 9 + 1] + rest;
      assert Encode(d, 15 - i) == Encode(d / 9, 14 - i) + [d % 9 + 1];
      d := d / 9;
    }
    r := Ok(v);
  }

  /** `Int`: the loop multiplies by 9 and adds the next digit less one. */
  method Int(v: Input) returns (r: int)
    ensures r == Value(v)
  {
    r := 0;
    for i := 0 to 14
      invariant r == Value(v[..i])
    {
      assert v[..i + 1][..i] == v[..i];
      r := r * 9;
      r := r + (v[i] - 1);
    }
    assert v[..14] == v;
  }

  /** Every digit of an encoding lies in 1..9. */
  lemma {:induction false} EncodeDigits(val: nat, n: nat)
    ensures Digits(Encode(val, n))
  {
    if n > 0 {
      EncodeDigits(val / 9, n - 1);
    }
  }

  /** Digit i of the encoding is the base-9 digit of weight 9^(n-1-i),
      plus one. */
  lemma {:induction false} EncodeDigitAt(val: nat, n: nat, i: nat)
    requires i < n
    ensures Encode(val, n)[i] == (val / Pow9(n - 1 - i)) % 9 + 1
  {
    if i < n - 1 {
      EncodeDigitAt(val / 9, n - 1, i);
      NineSplit(val, Pow9(n - 2 - i));
    }
  }

  /** Reading an encoding back gives the value modulo 9^n. */
  lemma {:induction false} ValueEncode(val: nat, n: nat)
    ensures Value(Encode(val, n)) == val % Pow9(n)
  {
    if n == 0 {
      Modular.ModUnique(val, 1, val, 0);
    } else {
      var s := Encode(val, n);
      assert s[..n - 1] == Encode(val / 9, n - 1);
      ValueEncode(val / 9, n - 1);
      assert Value(s) == 9 * ((val / 9) % Pow9(n - 1)) + val % 9;
      NineSplit(val, Pow9(n - 1));
    }
  }

  /** Dividing by 9 * p is dividing by 9 and then by p, and the remainder
      is the last base-9 digit plus 9 times the remainder of the rest. */
  lemma NineSplit(a: nat, p: int)
    requires p >= 1
    ensures a / (9 * p) == (a / 9) / p
    ensures a % (9 * p) == 9 * ((a / 9) % p) + a % 9
  {
    var q, r := a / 9, a % 9;
    var hi, lo := q / p, q % p;
    assert q == hi * p + lo && a == 9 * q + r;
    assert a == hi * (9 * p) + (9 * lo + r) by {
      assert 9 * (hi * p) == hi * (9 * p);
    }
    Modular.ModUnique(a, 9 * p, hi, 9 * lo + r);
  }

  /** Encoding the value of n digits in 1..9 gives the digits back. */
  lemma {:induction false} EncodeValue(s: seq<int>)
    requires Digits(s)
    ensures Value(s) >= 0 && Encode(Value(s), |s|) == s
  {
    if s != [] {
      var t, a := s[..|s| - 1], s[|s| - 1];
      assert Digits(t) by {
        assert forall i :: 0 <= i < |t| ==> t[i] == s[i];
      }
      EncodeValue(t);
      Modular.ModUnique(Value(s), 9, Value(t), a - 1);
      assert t + [a] == s;
    }
  }

  /** The value of n digits in 1..9 is below 9^n. */
  lemma {:induction false} ValueBound(s: seq<int>)
    requires Digits(s)
    ensures 0 <= Value(s) < Pow9(|s|)
  {
    if s != [] {
      var t := s[..|s| - 1];
      assert Digits(t) by {
        assert forall i :: 0 <= i < |t| ==> t[i] == s[i];
      }
      ValueBound(t);
    }
  }

  /** `Int(NewInput(v)) == v` for 0 <= v < 9^14. */
  lemma RoundTripValue(val: nat)
    requires val < Pow9(14)
    ensures Value(Encode(val, 14)) == val
  {
    ValueEncode(val, 14);
    Modular.ModUnique(val, Pow9(14), 0, val);
  }

  /** `NewInput(x.Int()) == x` for every input of digits 1..9. */
  lemma RoundTripInput(x: Input)
    requires Digits(x)
    ensures Value(x) >= 0 && Encode(Value(x), 14) == x
  {
    EncodeValue(x);
  }

  datatype Range = Range(min: int, max: int)

  /** `MaybeNegativeRange`: the same two endpoints, the smaller first. */
  function MaybeNegativeRange(min: int, max: int): (r: Range)
    ensures r.min <= r.max
    ensures multiset{r.min, r.max} == multiset{min, max}
  {
    if min > max then Range(max, min) else Range(min, max)
  }
}
