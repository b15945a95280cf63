/** 2020 day 25: a Diffie-Hellman style handshake modulo 20201227 with
    subject 7. */
module Y2020Dec25 {
  import opened Common
  import opened Modular

  const Modulus := 20201227

  /** The value after n rounds of `value *= subject; value %= 20201227`
      from 1, with Kotlin's remainder. */
  function Transform(n: nat, subject: int): int
  {
    if n == 0 then 1 else TRem(Transform(n - 1, subject) * subject, Modulus)
  }

  /** `transformSubject`: `repeat` runs max(0, loopNumber) rounds. */
  method TransformSubject(loopNumber: int, subject: int) returns (value: int)
    ensures value == Transform(if loopNumber < 0 then 0 else loopNumber, subject)
  {
    var rounds: nat := if loopNumber < 0 then 0 else loopNumber;
    value := 1;
    var k: nat := 0;
    while k < rounds
      invariant k <= rounds
      invariant value == Transform(k, subject)
    {
      var product := value * subject;
      value := TRem(product, Modulus);
      k := k + 1;
    }
  }

  /** For a non-negative subject the transform is the power modulo 20201227,
      so it stays in 0..20201226. */
  lemma {:induction false} TransformIsPow(n: nat, subject: int)
    requires subject >= 0
    ensures Transform(n, subject) == Pow(subject, n) % Modulus
    ensures 0 <= Transform(n, subject) < Modulus
  {
    if n > 0 {
      TransformIsPow(n - 1, subject);
      PowNonNegative(subject, n - 1);
      MulMod(Pow(subject, n - 1), subject, Modulus);
      assert Pow(subject, n - 1) * subject == Pow(subject, n);
    }
  }

  lemma {:induction false} PowNonNegative(b: int, n: nat)
    requires b >= 0
    ensures Pow(b, n) >= 0
  {
    if n > 0 {
      PowNonNegative(b, n - 1);
    }
  }

  lemma TransformZeroRounds(subject: int)
    ensures Transform(0, subject) == 1
  {
  }

  /** `reverseTransform`: divide by the subject modulo 20201227 (adding the
      modulus until the division is exact) until the subject is reached. The
      source loops until then; `fuel` bounds the total number of loop steps,
      and running out of it is `Err`, as is the `%` by a zero subject. A
      returned count c ≥ 1 has subject^c ≡ pubKey. */
  method ReverseTransform(pubKey: int, subject: int, fuel: nat) returns (r: Result<nat>)
    ensures r.Ok? ==> r.value >= 1 && Pow(subject, r.value) % Modulus == pubKey % Modulus
    ensures r.Ok? && subject >= 0 && 0 <= pubKey < Modulus ==> Transform(r.value, subject) == pubKey
    ensures subject == 0 && pubKey != 0 ==> r.Err?
  {
    var count: nat := 1;
    var current := pubKey;
    var steps := fuel;
    ghost var k := 0;
    while current != subject
      invariant current * Pow(subject, count - 1) == pubKey + k * Modulus
      invariant subject == 0 && pubKey != 0 ==> current == pubKey
      decreases steps
    {
      if subject == 0 {
        return Err("ArithmeticException: / by zero");
      }
      while TRem(current, subject) != 0
        invariant current * Pow(subject, count - 1) == pubKey + k * Modulus
        decreases steps
      {
        if steps == 0 {
          return Err("no result within the step bound");
        }
        steps := steps - 1;
        AddModulus(current, Pow(subject, count - 1), pubKey, k);
        k := k + Pow(subject, count - 1);
        current := current + Modulus;
      }
      if steps == 0 {
        return Err("no result within the step bound");
      }
      steps := steps - 1;
      var q := TDiv(current, subject);
      TDivRem(current, subject);
      DivideStep(current, q, subject, count, pubKey, k);
      current := q;
      count := count + 1;
    }
    Reached(subject, count, pubKey, k);
    if subject >= 0 {
      TransformIsPow(count, subject);
    }
    r := Ok(count);
  }

  lemma DivideStep(current: int, q: int, subject: int, count: nat, pubKey: int, k: int)
    requires count >= 1 && current == q * subject
    requires current * Pow(subject, count - 1) == pubKey + k * Modulus
    ensures q * Pow(subject, count) == pubKey + k * Modulus
  {
    calc {
      q * Pow(subject, count);
      q * (subject * Pow(subject, count - 1));
      (q * subject) * Pow(subject, count - 1);
    }
  }

  lemma Reached(subject: int, count: nat, pubKey: int, k: int)
    requires count >= 1 && subject * Pow(subject, count - 1) == pubKey + k * Modulus
    ensures Pow(subject, count) % Modulus == pubKey % Modulus
  {
    AddMultiple(pubKey, k, Modulus);
  }

  lemma AddModulus(current: int, p: int, pubKey: int, k: int)
    requires current * p == pubKey + k * Modulus
    ensures (current + Modulus) * p == pubKey + (k + p) * Modulus
  {
  }

  /** Part1: two public keys, each key's loop number against subject 7, and
      the two derived encryption keys, which `check` compares. */
  method Part1(lines: seq<string>, fuel: nat) returns (r: Result<int>)
    ensures |lines| != 2 ==> r.Err?
    ensures r.Ok? ==> (|lines| == 2 && ParseInt(lines[0]).Some? && ParseInt(lines[1]).Some? &&
      exists loop1: nat :: (loop1 >= 1 && Pow(7, loop1) % Modulus == ParseInt(lines[0]).value % Modulus &&
        r.value == Transform(loop1, ParseInt(lines[1]).value)))
    ensures r.Err? && r.msg == "Check failed." ==> (|lines| == 2 &&
      ParseInt(lines[0]).Some? && ParseInt(lines[1]).Some? &&
      !(0 <= ParseInt(lines[0]).value && 0 <= ParseInt(lines[1]).value))
  {
    if |lines| != 2 {
      return Err("Check failed: two lines expected");
    }
    var p1 := ParseInt(lines[0]);
    var p2 := ParseInt(lines[1]);
    if p1.None? || p2.None? {
      return Err("NumberFormatException");
    }
    var pubKey1, pubKey2 := p1.value, p2.value;
    var loopNum1 := ReverseTransform(pubKey1, 7, fuel);
    if loopNum1.Err? {
      return Err("reverseTransform: " + loopNum1.msg);
    }
    var loopNum2 := ReverseTransform(pubKey2, 7, fuel);
    if loopNum2.Err? {
      return Err("reverseTransform: " + loopNum2.msg);
    }
    var encryptionKey1 := TransformSubject(loopNum1.value, pubKey2);
    var encryptionKey2 := TransformSubject(loopNum2.value, pubKey1);
    if 0 <= pubKey1 && 0 <= pubKey2 {
      KeysAgree(pubKey1, pubKey2, loopNum1.value, loopNum2.value);
    }
    if encryptionKey1 != encryptionKey2 {
      return Err("Check failed.");
    }
    r := Ok(encryptionKey1);
  }

  /** Both sides derive the same encryption key: pub2^loop1 and pub1^loop2
      are both 7^(loop1·loop2) modulo 20201227. */
  lemma KeysAgree(pub1: int, pub2: int, loop1: nat, loop2: nat)
    requires 0 <= pub1 && 0 <= pub2
    requires Pow(7, loop1) % Modulus == pub1 % Modulus
    requires Pow(7, loop2) % Modulus == pub2 % Modulus
    ensures Transform(loop1, pub2) == Transform(loop2, pub1)
  {
    TransformIsPow(loop1, pub2);
    TransformIsPow(loop2, pub1);
    PowCongruent(pub2, Pow(7, loop2), loop1, Modulus);
    PowCongruent(pub1, Pow(7, loop1), loop2, Modulus);
    PowMul(7, loop2, loop1);
    PowMul(7, loop1, loop2);
    assert loop2 * loop1 == loop1 * loop2;
  }

  /** The puzzle's example keys: card key 5764801 is 7^8 and door key
      17807724 is 7^11 modulo 20201227. */
  lemma ExampleKeys()
    ensures Transform(8, 7) == 5764801
    ensures Transform(11, 7) == 17807724
  {
    assert Transform(1, 7) == 7;
    assert Transform(2, 7) == 49;
    assert Transform(3, 7) == 343;
    assert Transform(4, 7) == 2401;
    assert Transform(5, 7) == 16807;
    assert Transform(6, 7) == 117649;
    assert Transform(7, 7) == 823543;
    assert Transform(8, 7) == 5764801;
    assert Transform(9, 7) == 20152380;
    assert Transform(10, 7) == 19859298;
  }
}
