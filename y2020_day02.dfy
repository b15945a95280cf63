/** 2020 day 2: password policies. Lines are taken as already-parsed records. */
module Y2020Day02 {
  import opened Common

  /** A parsed "min-max letter: password" line. */
  datatype PasswordLine = PasswordLine(min: int, max: int, letter: char, password: string)

  /** Part1's rule: the letter occurs between min and max times. */
  predicate IsValidPart1(p: PasswordLine)
  {
    p.min <= CountWhere(p.password, c => c == p.letter) <= p.max
  }

  /** Part2's rule: exactly one of the 1-based positions min and max holds the
      letter. Kotlin's string indexing throws when either position is outside
      the password. */
  function IsValidPart2(p: PasswordLine): (r: Result<bool>)
    ensures r.Ok? <==> 1 <= p.min <= |p.password| && 1 <= p.max <= |p.password|
  {
    if !(1 <= p.min <= |p.password| && 1 <= p.max <= |p.password|) then Err("index out of bounds")
    else Ok((p.password[p.min - 1] == p.letter) != (p.password[p.max - 1] == p.letter))
  }

  /** Whether the 0-based position k of the password holds the letter. */
  predicate HoldsLetter(p: PasswordLine, k: int)
  {
    0 <= k < |p.password| && p.password[k] == p.letter
  }

  /** Part2's rule accepts a line iff exactly one entry of the position list
      [min - 1, max - 1] holds the letter; the same position named twice is
      counted twice, so min == max is never valid. */
  lemma IsValidPart2Positions(p: PasswordLine)
    requires IsValidPart2(p).Ok?
    ensures IsValidPart2(p).value <==>
      CountWhere([p.min - 1, p.max - 1], k => HoldsLetter(p, k)) == 1
  {
    var f := k => HoldsLetter(p, k);
    var ks := [p.min - 1, p.max - 1];
    assert ks[..1] == [p.min - 1];
    assert ks[..1][..0] == [];
    assert CountWhere(ks[..1], f) == if HoldsLetter(p, p.min - 1) then 1 else 0;
    assert CountWhere(ks, f) ==
      CountWhere(ks[..1], f) + (if HoldsLetter(p, p.max - 1) then 1 else 0);
  }

  /** Part1's rule in terms of the positions holding the letter. */
  lemma IsValidPart1Positions(p: PasswordLine)
    ensures IsValidPart1(p) <==>
      p.min <= |set i | 0 <= i < |p.password| && p.password[i] == p.letter| <= p.max
  {
    CountWhereIsIndices(p.password, c => c == p.letter);
    assert IndicesWhere(p.password, c => c == p.letter) ==
      set i | 0 <= i < |p.password| && p.password[i] == p.letter;
  }

  /** Part1 counts the lines valid under its rule. */
  function CountPart1(lines: seq<PasswordLine>): (n: nat)
    ensures n == |IndicesWhere(lines, IsValidPart1)| <= |lines|
  {
    CountWhereIsIndices(lines, IsValidPart1);
    CountWhere(lines, IsValidPart1)
  }

  predicate ValidPart2(p: PasswordLine) { IsValidPart2(p) == Ok(true) }

  /** Part2 counts the lines valid under its rule, or fails as soon as a
      line's positions fall outside its password. */
  function CountPart2(lines: seq<PasswordLine>): (r: Result<nat>)
    ensures r.Ok? <==> forall i :: 0 <= i < |lines| ==> IsValidPart2(lines[i]).Ok?
    ensures r.Ok? ==> r.value == CountWhere(lines, ValidPart2)
  {
    if lines == [] then Ok(0)
    else
      match CountPart2(lines[..|lines| - 1])
      case Err(m) => Err(m)
      case Ok(n) =>
        match IsValidPart2(lines[|lines| - 1])
        case Err(m) => Err(m)
        case Ok(b) => Ok(n + if b then 1 else 0)
  }
}
