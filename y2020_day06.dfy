/** 2020 day 6: customs declaration forms, one paragraph per group and one
    line per person. */
module Y2020Day06 {
  import opened Common

  predicate IsLetter(c: char) { 'a' <= c <= 'z' }

  /** The letters a..z occurring anywhere in s. */
  function Letters(s: string): set<char>
  {
    set i | 0 <= i < |s| && IsLetter(s[i]) :: s[i]
  }

  /** Part1's per-group value: the number of distinct letters in the paragraph. */
  function AnyoneCount(para: string): nat
  {
    |Letters(para)|
  }

  function Part1(paras: seq<string>): int
  {
    if paras == [] then 0 else Part1(paras[..|paras| - 1]) + AnyoneCount(paras[|paras| - 1])
  }

  /** Part1's sum is additive over the groups: splitting the paragraphs
      anywhere splits the total. */
  lemma {:induction false} Part1Append(a: seq<string>, b: seq<string>)
    ensures Part1(a + b) == Part1(a) + Part1(b)
  {
    if b != [] {
      Part1Append(a, b[..|b| - 1]);
      assert (a + b)[..|a + b| - 1] == a + b[..|b| - 1];
    } else {
      assert a + b == a;
    }
  }

  /** The letters present on every line. */
  ghost function Everyone(para: string): set<char>
  {
    set c | c in Letters(para) && forall k :: 0 <= k < |SplitOn(para, '\n')| ==> c in SplitOn(para, '\n')[k]
  }

  /** Part2's per-group value: `matches` starts as the paragraph's letters
      and `retainAll` shrinks it by each line's characters. */
  method EveryoneCount(para: string) returns (n: nat)
    ensures n == |Everyone(para)|
    ensures n <= AnyoneCount(para)
  {
    var lines := SplitOn(para, '\n');
    var matches := Letters(para);
    var k := 0;
    while k < |lines|
      invariant 0 <= k <= |lines|
      invariant matches == set c | c in Letters(para) && forall j :: 0 <= j < k ==> c in lines[j]
    {
      matches := set c | c in matches && c in lines[k];
      k := k + 1;
    }
    assert matches == Everyone(para);
    assert matches <= Letters(para);
    SubsetCard(matches, Letters(para));
    n := |matches|;
  }

  lemma SubsetCard(a: set<char>, b: set<char>)
    requires a <= b
    ensures |a| <= |b|
  {
    assert b == a + (b - a);
  }

  /** The Part2 answer: the sum over the groups of the letters everyone has. */
  ghost function EveryoneTotal(paras: seq<string>): nat
  {
    if paras == [] then 0
    else EveryoneTotal(paras[..|paras| - 1]) + |Everyone(paras[|paras| - 1])|
  }

  /** Part2 sums the groups' counts. */
  method Part2(paras: seq<string>) returns (total: int)
    ensures total == EveryoneTotal(paras)
    ensures total <= Part1(paras)
  {
    total := 0;
    var i := 0;
    while i < |paras|
      invariant 0 <= i <= |paras|
      invariant total == EveryoneTotal(paras[..i])
      invariant total <= Part1(paras[..i])
    {
      assert paras[..i + 1][..i] == paras[..i];
      var n := EveryoneCount(paras[i]);
      total := total + n;
      i := i + 1;
    }
    assert paras[..i] == paras;
  }

  /** Every group's Part2 letters are among its Part1 letters, so the Part2
      total never exceeds the Part1 total. */
  lemma {:induction false} EveryoneTotalBound(paras: seq<string>)
    ensures EveryoneTotal(paras) <= Part1(paras)
  {
    if paras != [] {
      var last := paras[|paras| - 1];
      EveryoneTotalBound(paras[..|paras| - 1]);
      assert Everyone(last) <= Letters(last);
      SubsetCard(Everyone(last), Letters(last));
    }
  }

  /** A group of one person: everyone's answers are that person's letters. */
  lemma SinglePerson(line: string)
    requires '\n' !in line
    ensures Everyone(line) == Letters(line)
  {
    assert SplitOn(line, '\n') == [line] by { SplitNoSep(line, '\n'); }
  }
}
