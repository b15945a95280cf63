/** Small value types and sequence helpers shared by the per-day models. */
module Common {

  /** An optional value; `None` models Kotlin's `null` and Ruby's `nil`. */
  datatype Option<T> = None | Some(value: T)

  /** A computation that either yields a value or stops with the source's
      exception, `panic` or `log.Fatal` (the message is kept). */
  datatype Result<T> = Ok(value: T) | Err(msg: string)

  /** Sum of a sequence of integers. */
  function Sum(s: seq<int>): int
  {
    if s == [] then 0 else Sum(s[..|s| - 1]) + s[|s| - 1]
  }

  lemma {:induction false} SumAppend(s: seq<int>, t: seq<int>)
    ensures Sum(s + t) == Sum(s) + Sum(t)
  {
    if t == [] {
      assert s + t == s;
    } else {
      assert (s + t)[..|s + t| - 1] == s + t[..|t| - 1];
      SumAppend(s, t[..|t| - 1]);
    }
  }

  /** Product of a sequence of integers (1 for the empty sequence). */
  function Product(s: seq<int>): int
  {
    if s == [] then 1 else Product(s[..|s| - 1]) * s[|s| - 1]
  }

  /** Decimal value of a string of ASCII digits, most significant first. */
  function DigitsValue(s: string): nat
  {
    if s == [] then 0 else 10 * DigitsValue(s[..|s| - 1]) + DigitValue(s[|s| - 1])
  }

  predicate IsDigit(c: char) { '0' <= c <= '9' }

  predicate AllDigits(s: string) { forall i :: 0 <= i < |s| ==> IsDigit(s[i]) }

  function DigitValue(c: char): nat
  {
    if IsDigit(c) then (c as int - '0' as int) else 0
  }

  /** The decimal digits of n, most significant first, without leading zeros. */
  function NatString(n: nat): string
  {
    if n < 10 then [('0' as int + n) as char]
    else NatString(n / 10) + [('0' as int + n % 10) as char]
  }

  lemma {:induction false} NatStringValue(n: nat)
    ensures |NatString(n)| >= 1 && AllDigits(NatString(n))
    ensures DigitsValue(NatString(n)) == n
  {
    if n >= 10 {
      NatStringValue(n / 10);
      var s := NatString(n);
      assert s[..|s| - 1] == NatString(n / 10);
    }
  }

  /** Kotlin's `String.toInt()` on unbounded integers: an optional '+' or
      '-' and at least one decimal digit; anything else is `None` (the
      NumberFormatException). */
  function ParseInt(s: string): (r: Option<int>)
    ensures r.Some? ==> |s| >= 1
  {
    if |s| >= 1 && (s[0] == '-' || s[0] == '+') then
      if |s| >= 2 && AllDigits(s[1..]) then
        Some(if s[0] == '-' then -(DigitsValue(s[1..]) as int) else DigitsValue(s[1..]) as int)
      else None
    else if |s| >= 1 && AllDigits(s) then Some(DigitsValue(s))
    else None
  }

  /** The decimal form of an integer, with '-' for negatives. */
  function IntString(i: int): string
  {
    if i < 0 then "-" + NatString(-i) else NatString(i)
  }

  /** ParseInt reads back what IntString writes. */
  lemma ParseIntString(i: int)
    ensures ParseInt(IntString(i)) == Some(i)
  {
    if i < 0 {
      NatStringValue(-i);
      assert IntString(i)[1..] == NatString(-i);
    } else {
      NatStringValue(i);
    }
  }

  /** Smallest and largest element of a non-empty sequence. */
  function Max(s: seq<int>): (m: int)
    requires s != []
    ensures forall i :: 0 <= i < |s| ==> s[i] <= m
    ensures exists i :: 0 <= i < |s| && s[i] == m
  {
    if |s| == 1 then s[0]
    else
      var m' := Max(s[..|s| - 1]);
      assert forall i :: 0 <= i < |s| - 1 ==> s[..|s| - 1][i] == s[i];
      if s[|s| - 1] > m' then s[|s| - 1] else m'
  }

  function Min(s: seq<int>): (m: int)
    requires s != []
    ensures forall i :: 0 <= i < |s| ==> m <= s[i]
    ensures exists i :: 0 <= i < |s| && s[i] == m
  {
    if |s| == 1 then s[0]
    else
      var m' := Min(s[..|s| - 1]);
      assert forall i :: 0 <= i < |s| - 1 ==> s[..|s| - 1][i] == s[i];
      if s[|s| - 1] < m' then s[|s| - 1] else m'
  }

  function Abs(x: int): nat { if x < 0 then -x else x }

  /** The positions of `s` whose element satisfies `p`. */
  function IndicesWhere<T>(s: seq<T>, p: T -> bool): set<nat>
  {
    set i | 0 <= i < |s| && p(s[i])
  }

  /** Number of elements of `s` satisfying `p`, counted left to right as a
      Kotlin `filter { }.count()` does. */
  function CountWhere<T>(s: seq<T>, p: T -> bool): nat
  {
    if s == [] then 0 else CountWhere(s[..|s| - 1], p) + (if p(s[|s| - 1]) then 1 else 0)
  }

  /** The count is the number of satisfying positions, and at most |s|. */
  lemma {:induction false} CountWhereIsIndices<T>(s: seq<T>, p: T -> bool)
    ensures CountWhere(s, p) == |IndicesWhere(s, p)| <= |s|
  {
    if s == [] {
      assert IndicesWhere(s, p) == {};
    } else {
      var init := s[..|s| - 1];
      CountWhereIsIndices(init, p);
      var all := IndicesWhere(s, p);
      var before := IndicesWhere(init, p);
      assert all == if p(s[|s| - 1]) then before + {|s| - 1} else before;
    }
  }

  predicate SortedInts(s: seq<int>)
  {
    forall i, j :: 0 <= i < j < |s| ==> s[i] <= s[j]
  }

  /** Insert x into a sorted sequence. */
  function InsertSorted(x: int, s: seq<int>): (r: seq<int>)
    requires SortedInts(s)
    ensures SortedInts(r) && multiset(r) == multiset(s) + multiset{x} && |r| == |s| + 1
  {
    if s == [] then [x]
    else if x <= s[0] then [x] + s
    else
      var t := InsertSorted(x, s[1..]);
      assert s == [s[0]] + s[1..];
      LowerBound(s[0], x, s[1..], t);
      [s[0]] + t
  }

  /** A bound below x and every element of u bounds every element of a permutation of them. */
  lemma LowerBound(b: int, x: int, u: seq<int>, t: seq<int>)
    requires b <= x && (forall k :: 0 <= k < |u| ==> b <= u[k])
    requires multiset(t) == multiset(u) + multiset{x}
    ensures forall i :: 0 <= i < |t| ==> b <= t[i]
  {
    forall i | 0 <= i < |t| ensures b <= t[i] {
      assert t[i] in multiset(t);
      if t[i] != x {
        assert t[i] in multiset(u);
        var k :| 0 <= k < |u| && u[k] == t[i];
      }
    }
  }

  /** Kotlin's `sorted()` on integers: the ascending permutation. */
  function SortInts(s: seq<int>): (r: seq<int>)
    ensures SortedInts(r) && multiset(r) == multiset(s) && |r| == |s|
  {
    if s == [] then []
    else
      assert s == s[..|s| - 1] + [s[|s| - 1]];
      InsertSorted(s[|s| - 1], SortInts(s[..|s| - 1]))
  }

  /** Kotlin's `String.split(sep)`: every piece, empty ones included, so
      there is always one more piece than separators. */
  function SplitOn(s: string, sep: char): (pieces: seq<string>)
    ensures |pieces| >= 1
    ensures forall k :: 0 <= k < |pieces| ==> sep !in pieces[k]
  {
    if s == [] then [[]]
    else
      var rest := SplitOn(s[1..], sep);
      if s[0] == sep then [[]] + rest
      else [[s[0]] + rest[0]] + rest[1..]
  }

  lemma {:induction false} SplitAppendSep(a: string, b: string, sep: char)
    requires sep !in a
    ensures SplitOn(a + [sep] + b, sep) == [a] + SplitOn(b, sep)
  {
    if a == [] {
      assert (a + [sep] + b)[1..] == b;
    } else {
      assert (a + [sep] + b)[1..] == a[1..] + [sep] + b;
      assert a[0] != sep && (a + [sep] + b)[0] == a[0];
      SplitAppendSep(a[1..], b, sep);
      assert [a[0]] + a[1..] == a;
    }
  }

  lemma {:induction false} SplitNoSep(a: string, sep: char)
    requires sep !in a
    ensures SplitOn(a, sep) == [a]
  {
    if a != [] {
      SplitNoSep(a[1..], sep);
      assert a[0] != sep;
      assert [a[0]] + a[1..] == a;
    }
  }

  /** A separator in the text makes at least two pieces. */
  lemma {:induction false} SplitHasSep(s: string, sep: char)
    requires sep in s
    ensures |SplitOn(s, sep)| >= 2
  {
    if s[0] != sep {
      SplitHasSep(s[1..], sep);
    }
  }

  /** The sum of a map's values, `values.sum()`. */
  ghost function ValuesSum<K>(m: map<K, int>): int
    decreases |m|
  {
    if m == map[] then 0
    else
      var k :| k in m;
      m[k] + ValuesSum(m - {k})
  }

  /** The sum does not depend on which key is taken first. */
  lemma {:induction false} ValuesSumPick<K>(m: map<K, int>, k: K)
    requires k in m
    ensures ValuesSum(m) == m[k] + ValuesSum(m - {k})
    decreases |m|
  {
    var j :| j in m && ValuesSum(m) == m[j] + ValuesSum(m - {j});
    if j != k {
      assert |m - {j}| < |m|;
      ValuesSumPick(m - {j}, k);
      ValuesSumPick(m - {k}, j);
      assert m - {j} - {k} == m - {k} - {j};
    }
  }

  /** Adds up the values of a map, one key at a time. */
  method SumValues<K>(m: map<K, int>) returns (total: int)
    ensures total == ValuesSum(m)
  {
    total := 0;
    var rest := m;
    while rest != map[]
      invariant total + ValuesSum(rest) == ValuesSum(m)
      decreases |rest|
    {
      var k :| k in rest;
      ValuesSumPick(rest, k);
      total := total + rest[k];
      rest := rest - {k};
    }
  }

  /** The ASCII white-space characters (`Char.isWhitespace` and `\s` on
      ASCII input). */
  predicate IsSpace(c: char) { c in {' ', '\t', '\n', '\r', '\U{000B}', '\U{000C}'} }

  /** Kotlin's `isBlank`: every character is white space. */
  predicate IsBlank(line: string)
  {
    forall i :: 0 <= i < |line| ==> IsSpace(line[i])
  }

  function TrimStart(s: string): string
  {
    if s != [] && IsSpace(s[0]) then TrimStart(s[1..]) else s
  }

  function TrimEnd(s: string): string
  {
    if s != [] && IsSpace(s[|s| - 1]) then TrimEnd(s[..|s| - 1]) else s
  }

  lemma {:induction false} TrimStartSuffix(s: string)
    ensures |TrimStart(s)| <= |s| && TrimStart(s) == s[|s| - |TrimStart(s)|..]
    ensures forall k :: 0 <= k < |s| - |TrimStart(s)| ==> IsSpace(s[k])
  {
    if s != [] && IsSpace(s[0]) {
      TrimStartSuffix(s[1..]);
      assert forall k :: 1 <= k < |s| ==> s[k] == s[1..][k - 1];
    }
  }

  lemma {:induction false} TrimEndPrefix(s: string)
    ensures |TrimEnd(s)| <= |s| && TrimEnd(s) == s[..|TrimEnd(s)|]
    ensures forall k :: |TrimEnd(s)| <= k < |s| ==> IsSpace(s[k])
  {
    if s != [] && IsSpace(s[|s| - 1]) {
      TrimEndPrefix(s[..|s| - 1]);
    }
  }

  lemma {:induction false} TrimStartShape(s: string)
    ensures TrimStart(s) == [] || !IsSpace(TrimStart(s)[0])
  {
    if s != [] && IsSpace(s[0]) {
      TrimStartShape(s[1..]);
    }
  }

  lemma {:induction false} TrimEndShape(s: string)
    ensures TrimEnd(s) == [] || !IsSpace(TrimEnd(s)[|TrimEnd(s)| - 1])
  {
    if s != [] && IsSpace(s[|s| - 1]) {
      TrimEndShape(s[..|s| - 1]);
    }
  }

  lemma {:induction false} TrimEndKeepsStart(s: string)
    ensures TrimEnd(s) == [] || TrimEnd(s)[0] == s[0]
  {
    if s != [] && IsSpace(s[|s| - 1]) {
      TrimEndKeepsStart(s[..|s| - 1]);
    }
  }

  /** String order of Kotlin's `compareTo` and Go's `<` on strings:
      character by character, a proper prefix first. */
  predicate StrLe(a: string, b: string)
    decreases |a|
  {
    a == [] || (b != [] && (a[0] < b[0] || (a[0] == b[0] && StrLe(a[1..], b[1..]))))
  }

  lemma {:induction false} StrLeTotal(a: string, b: string)
    ensures StrLe(a, b) || StrLe(b, a)
    decreases |a|
  {
    if a != [] && b != [] && a[0] == b[0] {
      StrLeTotal(a[1..], b[1..]);
    }
  }

  lemma {:induction false} StrLeTrans(a: string, b: string, c: string)
    requires StrLe(a, b) && StrLe(b, c)
    ensures StrLe(a, c)
    decreases |a|
  {
    if a != [] && b[0] == c[0] && a[0] == b[0] {
      StrLeTrans(a[1..], b[1..], c[1..]);
    }
  }

  lemma {:induction false} StrLeAntisymmetric(a: string, b: string)
    requires StrLe(a, b) && StrLe(b, a)
    ensures a == b
    decreases |a|
  {
    if a != [] {
      StrLeAntisymmetric(a[1..], b[1..]);
      assert a == [a[0]] + a[1..] && b == [b[0]] + b[1..];
    }
  }

  predicate SortedStrings(s: seq<string>)
  {
    forall i, j :: 0 <= i < j < |s| ==> StrLe(s[i], s[j])
  }

  /** Insert x into a sorted sequence of strings. */
  function InsertString(x: string, s: seq<string>): (r: seq<string>)
    requires SortedStrings(s)
    ensures SortedStrings(r) && multiset(r) == multiset(s) + multiset{x} && |r| == |s| + 1
  {
    if s == [] then [x]
    else if StrLe(x, s[0]) then
      assert forall k :: 0 <= k < |s| ==> StrLe(x, s[k]) by {
        forall k | 0 <= k < |s| ensures StrLe(x, s[k]) {
          if k > 0 { StrLeTrans(x, s[0], s[k]); }
        }
      }
      [x] + s
    else
      var t := InsertString(x, s[1..]);
      assert s == [s[0]] + s[1..];
      StrLeTotal(x, s[0]);
      StringLowerBound(s[0], x, s[1..], t);
      [s[0]] + t
  }

  lemma StringLowerBound(b: string, x: string, u: seq<string>, t: seq<string>)
    requires StrLe(b, x) && (forall k :: 0 <= k < |u| ==> StrLe(b, u[k]))
    requires multiset(t) == multiset(u) + multiset{x}
    ensures forall i :: 0 <= i < |t| ==> StrLe(b, t[i])
  {
    forall i | 0 <= i < |t| ensures StrLe(b, t[i]) {
      assert t[i] in multiset(t);
      if t[i] != x {
        assert t[i] in multiset(u);
        var k :| 0 <= k < |u| && u[k] == t[i];
      }
    }
  }

  /** `sorted()` on strings: the ascending permutation. */
  function SortStrings(s: seq<string>): (r: seq<string>)
    ensures SortedStrings(r) && multiset(r) == multiset(s) && |r| == |s|
  {
    if s == [] then []
    else
      assert s == s[..|s| - 1] + [s[|s| - 1]];
      InsertString(s[|s| - 1], SortStrings(s[..|s| - 1]))
  }

  /** `joinToString(sep)`: the pieces with `sep` between neighbours. */
  function JoinWith(sep: string, parts: seq<string>): string
  {
    if parts == [] then ""
    else if |parts| == 1 then parts[0]
    else parts[0] + sep + JoinWith(sep, parts[1..])
  }
}
