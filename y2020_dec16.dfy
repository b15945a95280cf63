/** 2020 day 16: ticket fields with disjoint ranges of valid values, the
    values no field accepts, and the deduction of which position holds
    which field. */
module Y2020Dec16 {
  import opened Common
  import opened Y2020Paragraphs

  // ---------------------------------------------------------------------
  // Text helpers

  /** Kotlin's `split(sep)` for a non-empty string separator, scanning left
      to right. */
  function SplitStr(s: string, sep: string): (pieces: seq<string>)
    requires sep != []
    ensures |pieces| >= 1
    decreases |s|
  {
    if |s| >= |sep| && s[..|sep|] == sep then [[]] + SplitStr(s[|sep|..], sep)
    else if s == [] then [[]]
    else
      var rest := SplitStr(s[1..], sep);
      [[s[0]] + rest[0]] + rest[1..]
  }

  lemma {:induction false} SplitStrNoSep(a: string, sep: string)
    requires sep != [] && sep[0] !in a
    ensures SplitStr(a, sep) == [a]
  {
    if a != [] {
      assert a[0] != sep[0];
      SplitStrNoSep(a[1..], sep);
      assert [a[0]] + a[1..] == a;
    }
  }

  lemma {:induction false} SplitStrAppend(a: string, b: string, sep: string)
    requires sep != [] && sep[0] !in a
    ensures SplitStr(a + sep + b, sep) == [a] + SplitStr(b, sep)
  {
    var s := a + sep + b;
    if a == [] {
      assert s[..|sep|] == sep && s[|sep|..] == b;
    } else {
      assert s[0] == a[0] != sep[0];
      assert s[1..] == a[1..] + sep + b;
      SplitStrAppend(a[1..], b, sep);
      assert [a[0]] + a[1..] == a;
    }
  }

  /** Kotlin's `trim()`, for the ASCII white-space characters. */
  function Trim(s: string): (t: string)
    ensures t == [] || (!IsSpace(t[0]) && !IsSpace(t[|t| - 1]))
    ensures exists i, j ::
      (0 <= i <= j <= |s| && t == s[i..j] &&
       (forall k :: 0 <= k < i ==> IsSpace(s[k])) && (forall k :: j <= k < |s| ==> IsSpace(s[k])))
  {
    TrimEndShape(TrimStart(s));
    TrimStartShape(s);
    TrimEndKeepsStart(TrimStart(s));
    TrimStartSuffix(s);
    var u := TrimStart(s);
    TrimEndPrefix(u);
    var i := |s| - |u|;
    var j := i + |TrimEnd(u)|;
    assert TrimEnd(u) == s[i..j];
    assert forall k :: j <= k < |s| ==> s[k] == u[k - i];
    TrimEnd(u)
  }

  /** `split(',').map(String::toInt)`; a bad number is `None`. */
  function ParseInts(pieces: seq<string>): (r: Option<seq<int>>)
    ensures r.Some? ==> |r.value| == |pieces|
  {
    if pieces == [] then Some([])
    else
      var rest := ParseInts(pieces[1..]);
      if ParseInt(pieces[0]).None? || rest.None? then None
      else Some([ParseInt(pieces[0]).value] + rest.value)
  }

  // ---------------------------------------------------------------------
  // DisjointIntRange

  type Ranges = seq<(int, int)>

  /** `lo..hi` from "lo-hi": fewer than two pieces or a bad number throws. */
  function ParseBound(piece: string): Option<(int, int)>
  {
    var parts := SplitOn(piece, '-');
    if |parts| < 2 || ParseInt(parts[0]).None? || ParseInt(parts[1]).None? then None
    else Some((ParseInt(parts[0]).value, ParseInt(parts[1]).value))
  }

  function ParseBounds(pieces: seq<string>): (r: Option<Ranges>)
    ensures r.Some? ==> |r.value| == |pieces|
  {
    if pieces == [] then Some([])
    else
      var rest := ParseBounds(pieces[1..]);
      if ParseBound(pieces[0]).None? || rest.None? then None
      else Some([ParseBound(pieces[0]).value] + rest.value)
  }

  /** `DisjointIntRange.parse`: the text split on " or ", each piece on "-". */
  function ParseRanges(s: string): Option<Ranges>
  {
    ParseBounds(SplitStr(s, " or "))
  }

  /** `contains`: some inclusive range holds v. */
  predicate InRanges(rs: Ranges, v: int)
  {
    exists k :: 0 <= k < |rs| && rs[k].0 <= v <= rs[k].1
  }

  /** The input's own notation for a list of ranges with non-negative
      bounds, "lo-hi or lo-hi". */
  function RangesText(rs: Ranges): string
    requires rs != [] && forall k :: 0 <= k < |rs| ==> rs[k].0 >= 0 && rs[k].1 >= 0
  {
    var head := NatString(rs[0].0) + "-" + NatString(rs[0].1);
    if |rs| == 1 then head else head + " or " + RangesText(rs[1..])
  }

  lemma DigitsNoChar(n: nat, c: char)
    requires !IsDigit(c)
    ensures c !in NatString(n)
  {
    NatStringValue(n);
  }

  lemma BoundRoundTrip(lo: nat, hi: nat)
    ensures ' ' !in NatString(lo) + "-" + NatString(hi)
    ensures ParseBound(NatString(lo) + "-" + NatString(hi)) == Some((lo, hi))
  {
    DigitsNoChar(lo, '-');
    DigitsNoChar(hi, '-');
    DigitsNoChar(lo, ' ');
    DigitsNoChar(hi, ' ');
    SplitAppendSep(NatString(lo), NatString(hi), '-');
    SplitNoSep(NatString(hi), '-');
    assert NatString(lo) + "-" + NatString(hi) == NatString(lo) + ['-'] + NatString(hi);
    assert IntString(lo) == NatString(lo) && IntString(hi) == NatString(hi);
    ParseIntString(lo);
    ParseIntString(hi);
  }

  /** `parse` reads back the input's notation. */
  lemma {:induction false} ParseRangesText(rs: Ranges)
    requires rs != [] && forall k :: 0 <= k < |rs| ==> rs[k].0 >= 0 && rs[k].1 >= 0
    ensures ParseRanges(RangesText(rs)) == Some(rs)
  {
    BoundRoundTrip(rs[0].0, rs[0].1);
    if |rs| == 1 {
      ParseRangesOne(rs);
    } else {
      var tail := rs[1..];
      assert forall k :: 0 <= k < |tail| ==> tail[k] == rs[k + 1];
      ParseRangesText(tail);
      ParseRangesMore(rs);
    }
  }

  lemma ParseRangesOne(rs: Ranges)
    requires |rs| == 1 && rs[0].0 >= 0 && rs[0].1 >= 0
    requires ' ' !in NatString(rs[0].0) + "-" + NatString(rs[0].1)
    requires ParseBound(NatString(rs[0].0) + "-" + NatString(rs[0].1)) == Some(rs[0])
    ensures ParseRanges(RangesText(rs)) == Some(rs)
  {
    var head := NatString(rs[0].0) + "-" + NatString(rs[0].1);
    assert RangesText(rs) == head;
    SplitStrNoSep(head, " or ");
    assert [head][1..] == [];
    assert ParseBounds([head]) == Some([rs[0]] + []);
    assert [rs[0]] + [] == rs;
  }

  lemma ParseRangesMore(rs: Ranges)
    requires |rs| > 1 && forall k :: 0 <= k < |rs| ==> rs[k].0 >= 0 && rs[k].1 >= 0
    requires ' ' !in NatString(rs[0].0) + "-" + NatString(rs[0].1)
    requires ParseBound(NatString(rs[0].0) + "-" + NatString(rs[0].1)) == Some(rs[0])
    requires ParseRanges(RangesText(rs[1..])) == Some(rs[1..])
    ensures ParseRanges(RangesText(rs)) == Some(rs)
  {
    var head := NatString(rs[0].0) + "-" + NatString(rs[0].1);
    SplitStrAppend(head, RangesText(rs[1..]), " or ");
    var pieces := [head] + SplitStr(RangesText(rs[1..]), " or ");
    assert pieces[1..] == SplitStr(RangesText(rs[1..]), " or ");
    assert [rs[0]] + rs[1..] == rs;
  }


  // ---------------------------------------------------------------------
  // Lines

  /** A line with ':' splits into a prefix and the text after the first
      ':' (up to a second one). */
  function Prefix(line: string): string
    requires ':' in line
  {
    SplitHasSep(line, ':');
    SplitOn(line, ':')[0]
  }

  function AfterColon(line: string): string
    requires ':' in line
  {
    SplitHasSep(line, ':');
    SplitOn(line, ':')[1]
  }

  predicate InSomeField(fields: map<string, Ranges>, v: int)
  {
    exists f :: f in fields && InRanges(fields[f], v)
  }

  /** The values of a row that no field accepts, in order. */
  function Invalid(fields: map<string, Ranges>, vs: seq<int>): (r: seq<int>)
    ensures forall x :: x in r <==> x in vs && !InSomeField(fields, x)
  {
    if vs == [] then []
    else
      var rest := Invalid(fields, vs[1..]);
      assert forall x :: x in vs <==> x == vs[0] || x in vs[1..];
      (if InSomeField(fields, vs[0]) then [] else [vs[0]]) + rest
  }

  // ---------------------------------------------------------------------
  // Part1

  datatype State1 = State1(section: string, fields: map<string, Ranges>, invalid: seq<int>)

  function Step1(st: State1, line: string): Option<State1>
  {
    if IsBlank(line) then Some(st)
    else if ':' in line then
      var prefix := Prefix(line);
      if prefix == "your ticket" then Some(st.(section := "your"))
      else if prefix == "nearby tickets" then Some(st.(section := "nearby"))
      else
        var rs := ParseRanges(Trim(AfterColon(line)));
        if rs.None? then None else Some(st.(fields := st.fields[prefix := rs.value]))
    else if st.section == "nearby" then
      var vs := ParseInts(SplitOn(line, ','));
      if vs.None? then None else Some(st.(invalid := st.invalid + Invalid(st.fields, vs.value)))
    else Some(st)
  }

  function Run1(lines: seq<string>): Option<State1>
  {
    if lines == [] then Some(State1("fields", map[], []))
    else
      var prev := Run1(lines[..|lines| - 1]);
      if prev.None? then None else Step1(prev.value, lines[|lines| - 1])
  }

  /** Part1: the sum (not the product its comment announces) of the nearby
      values that no field accepts; a bad number throws. */
  method Part1(lines: seq<string>) returns (r: Result<int>)
    ensures r.Ok? <==> Run1(lines).Some?
    ensures r.Ok? ==> r.value == Sum(Run1(lines).value.invalid)
  {
    var fields: map<string, Ranges> := map[];
    var invalidValues: seq<int> := [];
    var section := "fields";
    var k := 0;
    while k < |lines|
      invariant 0 <= k <= |lines|
      invariant Run1(lines[..k]) == Some(State1(section, fields, invalidValues))
    {
      var line := lines[k];
      assert lines[..k + 1][..k] == lines[..k];
      if !IsBlank(line) {
        if ':' in line {
          var prefix, value := Prefix(line), AfterColon(line);
          if prefix == "your ticket" {
            section := "your";
          } else if prefix == "nearby tickets" {
            section := "nearby";
          } else {
            var rs := ParseRanges(Trim(value));
            if rs.None? {
              Stuck1(lines, k + 1);
              return Err("NumberFormatException");
            }
            fields := fields[prefix := rs.value];
          }
        } else if section == "nearby" {
          var vs := ParseInts(SplitOn(line, ','));
          if vs.None? {
            Stuck1(lines, k + 1);
            return Err("NumberFormatException");
          }
          invalidValues := invalidValues + Invalid(fields, vs.value);
        }
      }
      k := k + 1;
    }
    assert lines[..k] == lines;
    r := Ok(Sum(invalidValues));
  }

  /** Once a line throws, so does every longer input. */
  lemma {:induction false} Stuck1(lines: seq<string>, n: nat)
    requires n <= |lines| && Run1(lines[..n]).None?
    ensures Run1(lines).None?
    decreases |lines| - n
  {
    if n < |lines| {
      assert lines[..n + 1][..n] == lines[..n];
      Stuck1(lines, n + 1);
    } else {
      assert lines[..n] == lines;
    }
  }

  /** A nearby row adds exactly its values that lie in no field's range. */
  lemma NearbyRow(st: State1, line: string)
    requires st.section == "nearby" && !IsBlank(line) && ':' !in line
    requires ParseInts(SplitOn(line, ',')).Some?
    ensures Step1(st, line).Some?
    ensures var added := Step1(st, line).value.invalid[|st.invalid|..];
      Step1(st, line).value.invalid[..|st.invalid|] == st.invalid &&
      forall x :: x in added <==> x in ParseInts(SplitOn(line, ',')).value && !InSomeField(st.fields, x)
  {
    var vs := ParseInts(SplitOn(line, ',')).value;
    var inv := st.invalid + Invalid(st.fields, vs);
    assert inv[|st.invalid|..] == Invalid(st.fields, vs);
    assert inv[..|st.invalid|] == st.invalid;
  }

  // ---------------------------------------------------------------------
  // Part2

  predicate Distinct<T(==)>(s: seq<T>) { forall i, j :: 0 <= i < j < |s| ==> s[i] != s[j] }

  /** `(0 until n).toHashSet()`. */
  function AllPositions(n: nat): (r: set<int>)
    ensures forall i :: i in r <==> 0 <= i < n
  {
    if n == 0 then {} else AllPositions(n - 1) + {n - 1}
  }

  /** The positions of a row whose value the ranges reject. */
  function Rejected(rs: Ranges, vs: seq<int>): set<int>
  {
    set i | 0 <= i < |vs| && !InRanges(rs, vs[i])
  }

  /** A field without candidates whose range rejects some value of the row:
      `getValue` throws on it. */
  predicate Missing(possible: map<string, set<int>>, fields: map<string, Ranges>, vs: seq<int>)
  {
    exists f, i :: f in fields && f !in possible && 0 <= i < |vs| && !InRanges(fields[f], vs[i])
  }

  /** The candidates after a valid row: each field loses the positions
      whose value it rejects. */
  function Eliminated(possible: map<string, set<int>>, fields: map<string, Ranges>, vs: seq<int>): map<string, set<int>>
  {
    map f | f in possible :: if f in fields then possible[f] - Rejected(fields[f], vs) else possible[f]
  }

  /** The field names in insertion order, the ranges, the candidate
      positions, and your ticket. */
  datatype State2 = State2(section: string, names: seq<string>, fields: map<string, Ranges>,
                           possible: map<string, set<int>>, your: seq<int>)

  ghost predicate Valid2(st: State2)
  {
    Distinct(st.names) && (forall f :: f in st.fields <==> f in st.names)
  }

  function Step2(st: State2, line: string): Option<State2>
  {
    if IsBlank(line) then Some(st)
    else if ':' in line then
      var prefix := Prefix(line);
      if prefix == "your ticket" then Some(st.(section := "your"))
      else if prefix == "nearby tickets" then
        Some(st.(section := "nearby",
                 possible := st.possible + map f | f in st.fields :: AllPositions(|st.fields|)))
      else
        var rs := ParseRanges(Trim(AfterColon(line)));
        if rs.None? then None
        else Some(st.(fields := st.fields[prefix := rs.value],
                      names := if prefix in st.fields then st.names else st.names + [prefix]))
    else if st.section == "your" then
      var vs := ParseInts(SplitOn(line, ','));
      if vs.None? then None else Some(st.(your := vs.value))
    else if st.section == "nearby" then
      var vs := ParseInts(SplitOn(line, ','));
      if vs.None? then None
      else if exists v :: v in vs.value && !InSomeField(st.fields, v) then Some(st)
      else if Missing(st.possible, st.fields, vs.value) then None
      else Some(st.(possible := Eliminated(st.possible, st.fields, vs.value)))
    else Some(st)
  }

  function Run2(lines: seq<string>): (r: Option<State2>)
    ensures r.Some? ==> Valid2(r.value)
  {
    if lines == [] then Some(State2("fields", [], map[], map[], []))
    else
      var prev := Run2(lines[..|lines| - 1]);
      if prev.None? then None else StepValid(prev.value, lines[|lines| - 1]); Step2(prev.value, lines[|lines| - 1])
  }

  lemma StepValid(st: State2, line: string)
    requires Valid2(st)
    ensures Step2(st, line).Some? ==> Valid2(Step2(st, line).value)
  {
    if !IsBlank(line) && ':' in line {
      var prefix := Prefix(line);
      if prefix != "your ticket" && prefix != "nearby tickets" && prefix !in st.fields {
        assert prefix !in st.names;
      }
    }
  }

  /** The row loop of Part2: for each position, each field whose range
      rejects the value there loses that position. */
  method Eliminate(possible: map<string, set<int>>, names: seq<string>, fields: map<string, Ranges>, vs: seq<int>)
    returns (r: Option<map<string, set<int>>>)
    requires Distinct(names) && forall f :: f in fields <==> f in names
    ensures r.None? <==> Missing(possible, fields, vs)
    ensures r.Some? ==> r.value == Eliminated(possible, fields, vs)
  {
    var cur := possible;
    PartialZero(possible, fields, vs);
    var i := 0;
    while i < |vs|
      invariant 0 <= i <= |vs|
      invariant cur == Partial(possible, fields, vs, i)
      invariant forall f, k :: f in fields && 0 <= k < i && !InRanges(fields[f], vs[k]) ==> f in possible
    {
      var next := EliminateAt(cur, names, fields, vs, i);
      if next.None? {
        return None;
      }
      RowDone(possible, fields, vs, i, cur, next.value);
      cur := next.value;
      i := i + 1;
    }
    PartialAll(possible, fields, vs);
    r := Some(cur);
  }

  /** The inner loop: every field whose range rejects the value at
      position i loses i; a rejecting field without candidates throws. */
  method EliminateAt(cur: map<string, set<int>>, names: seq<string>, fields: map<string, Ranges>, vs: seq<int>, i: nat)
    returns (r: Option<map<string, set<int>>>)
    requires i < |vs| && forall f :: f in fields <==> f in names
    ensures r.None? <==> exists f :: f in fields && f !in cur && !InRanges(fields[f], vs[i])
    ensures r.Some? ==> r.value.Keys == cur.Keys && forall f :: f in cur ==>
      r.value[f] == if f in fields && !InRanges(fields[f], vs[i]) then cur[f] - {i} else cur[f]
  {
    var m := cur;
    var j := 0;
    while j < |names|
      invariant 0 <= j <= |names|
      invariant m.Keys == cur.Keys
      invariant forall f :: f in cur ==>
        m[f] == if f in names[..j] && !InRanges(fields[f], vs[i]) then cur[f] - {i} else cur[f]
      invariant forall f :: f in names[..j] && !InRanges(fields[f], vs[i]) ==> f in cur
    {
      var field := names[j];
      assert names[..j + 1] == names[..j] + [field];
      if !InRanges(fields[field], vs[i]) {
        if field !in m {
          return None;
        }
        m := m[field := m[field] - {i}];
      }
      j := j + 1;
    }
    assert names[..j] == names;
    r := Some(m);
  }

  lemma PartialZero(possible: map<string, set<int>>, fields: map<string, Ranges>, vs: seq<int>)
    ensures Partial(possible, fields, vs, 0) == possible
  {
    var p0 := Partial(possible, fields, vs, 0);
    forall f | f in possible ensures p0[f] == possible[f] {
      if f in fields {
        assert RejectedBelow(fields[f], vs, 0) == {};
      }
    }
  }

  ghost function RejectedBelow(rs: Ranges, vs: seq<int>, i: nat): set<int>
  {
    set k | 0 <= k < i && k < |vs| && !InRanges(rs, vs[k])
  }

  /** The candidates once positions below i are checked. */
  ghost function Partial(possible: map<string, set<int>>, fields: map<string, Ranges>, vs: seq<int>, i: nat): map<string, set<int>>
  {
    map f | f in possible :: if f in fields then possible[f] - RejectedBelow(fields[f], vs, i) else possible[f]
  }

  lemma RowDone(possible: map<string, set<int>>, fields: map<string, Ranges>, vs: seq<int>, i: nat,
                before: map<string, set<int>>, cur: map<string, set<int>>)
    requires i < |vs| && before == Partial(possible, fields, vs, i) && cur.Keys == possible.Keys
    requires forall f :: f in possible ==>
      cur[f] == if f in fields && !InRanges(fields[f], vs[i]) then before[f] - {i} else before[f]
    ensures cur == Partial(possible, fields, vs, i + 1)
  {
    var after := Partial(possible, fields, vs, i + 1);
    forall f | f in possible
      ensures cur[f] == after[f]
    {
      if f in fields {
        assert RejectedBelow(fields[f], vs, i + 1) ==
          RejectedBelow(fields[f], vs, i) + (if InRanges(fields[f], vs[i]) then {} else {i});
      }
    }
  }

  lemma PartialAll(possible: map<string, set<int>>, fields: map<string, Ranges>, vs: seq<int>)
    ensures Partial(possible, fields, vs, |vs|) == Eliminated(possible, fields, vs)
    ensures (forall f, k :: f in fields && 0 <= k < |vs| && !InRanges(fields[f], vs[k]) ==> f in possible) ==>
      !Missing(possible, fields, vs)
  {
    forall f | f in fields ensures RejectedBelow(fields[f], vs, |vs|) == Rejected(fields[f], vs) { }
  }

  /** What the candidates keep: a position stays with a field only while
      every valid row's value there lies in the field's range. */
  lemma EliminatedSound(possible: map<string, set<int>>, fields: map<string, Ranges>, vs: seq<int>)
    ensures forall f :: f in Eliminated(possible, fields, vs) <==> f in possible
    ensures forall f, p :: f in possible && f in fields && p in Eliminated(possible, fields, vs)[f] && 0 <= p < |vs| ==>
      InRanges(fields[f], vs[p])
    ensures forall f :: f in possible ==> Eliminated(possible, fields, vs)[f] <= possible[f]
  {
  }

  lemma {:induction false} Stuck2(lines: seq<string>, n: nat)
    requires n <= |lines| && Run2(lines[..n]).None?
    ensures Run2(lines).None?
    decreases |lines| - n
  {
    if n < |lines| {
      assert lines[..n + 1][..n] == lines[..n];
      Stuck2(lines, n + 1);
    } else {
      assert lines[..n] == lines;
    }
  }

  /** `sortedBy { possiblePositions.getValue(it).size }`, a stable sort by
      the number of candidates: x goes after every name with no more
      candidates than it. */
  function InsertBySize(x: string, sorted: seq<string>, possible: map<string, set<int>>): (r: seq<string>)
    requires x in possible && forall f :: f in sorted ==> f in possible
    ensures forall f :: f in r <==> f == x || f in sorted
  {
    if sorted == [] then [x]
    else if |possible[x]| < |possible[sorted[0]]| then [x] + sorted
    else
      assert sorted == [sorted[0]] + sorted[1..];
      [sorted[0]] + InsertBySize(x, sorted[1..], possible)
  }

  predicate BySize(s: seq<string>, possible: map<string, set<int>>)
    requires forall f :: f in s ==> f in possible
  {
    forall i, j :: 0 <= i < j < |s| ==> |possible[s[i]]| <= |possible[s[j]]|
  }

  lemma {:induction false} InsertMultiset(x: string, sorted: seq<string>, possible: map<string, set<int>>)
    requires x in possible && forall f :: f in sorted ==> f in possible
    ensures multiset(InsertBySize(x, sorted, possible)) == multiset(sorted) + multiset{x}
  {
    if sorted != [] && |possible[x]| >= |possible[sorted[0]]| {
      assert sorted == [sorted[0]] + sorted[1..];
      InsertMultiset(x, sorted[1..], possible);
    }
  }

  lemma {:induction false} InsertSorted(x: string, sorted: seq<string>, possible: map<string, set<int>>)
    requires x in possible && forall f :: f in sorted ==> f in possible
    requires BySize(sorted, possible)
    ensures BySize(InsertBySize(x, sorted, possible), possible)
  {
    if sorted != [] && |possible[x]| >= |possible[sorted[0]]| {
      var s0, tail := sorted[0], sorted[1..];
      assert sorted == [s0] + tail;
      TailBySize(s0, tail, possible);
      InsertSorted(x, tail, possible);
      var rest := InsertBySize(x, tail, possible);
      forall j | 0 <= j < |rest| ensures |possible[s0]| <= |possible[rest[j]]| {
        assert rest[j] in rest;
        if rest[j] != x {
          var k :| 0 <= k < |tail| && tail[k] == rest[j];
          assert sorted[k + 1] == rest[j];
        }
      }
      ConsBySize(s0, rest, possible);
    } else if sorted != [] {
      forall j | 0 <= j < |sorted| ensures |possible[x]| <= |possible[sorted[j]]| {
        assert |possible[sorted[0]]| <= |possible[sorted[j]]|;
      }
      ConsBySize(x, sorted, possible);
    }
  }

  lemma TailBySize(s0: string, tail: seq<string>, possible: map<string, set<int>>)
    requires forall f :: f in [s0] + tail ==> f in possible
    requires BySize([s0] + tail, possible)
    ensures forall f :: f in tail ==> f in possible
    ensures BySize(tail, possible)
  {
    var s := [s0] + tail;
    assert forall f :: f in tail ==> f in s;
    forall i, j | 0 <= i < j < |tail| ensures |possible[tail[i]]| <= |possible[tail[j]]| {
      assert tail[i] == s[i + 1] && tail[j] == s[j + 1];
    }
  }

  lemma ConsBySize(x: string, rest: seq<string>, possible: map<string, set<int>>)
    requires x in possible && forall f :: f in rest ==> f in possible
    requires BySize(rest, possible)
    requires forall j :: 0 <= j < |rest| ==> |possible[x]| <= |possible[rest[j]]|
    ensures forall f :: f in [x] + rest ==> f in possible
    ensures BySize([x] + rest, possible)
  {
    var r := [x] + rest;
    forall i, j | 0 <= i < j < |r| ensures |possible[r[i]]| <= |possible[r[j]]| {
      assert r[j] == rest[j - 1];
      if i > 0 {
        assert r[i] == rest[i - 1];
      }
    }
  }

  function SortBySize(names: seq<string>, possible: map<string, set<int>>): (r: seq<string>)
    requires forall f :: f in names ==> f in possible
    ensures forall f :: f in r <==> f in names
    ensures multiset(r) == multiset(names)
    ensures BySize(r, possible)
  {
    if names == [] then []
    else
      var init, last := names[..|names| - 1], names[|names| - 1];
      assert names == init + [last];
      var rest := SortBySize(init, possible);
      InsertMultiset(last, rest, possible);
      InsertSorted(last, rest, possible);
      InsertBySize(last, rest, possible)
  }

  /** An assignment of one candidate position to each field, no two fields
      sharing a position. */
  ghost predicate Assignment(names: seq<string>, possible: map<string, set<int>>, pos: map<string, int>)
    requires forall f :: f in names ==> f in possible
  {
    (forall f :: f in pos <==> f in names) &&
    (forall f :: f in names ==> pos[f] in possible[f]) &&
    (forall f, g :: f in names && g in names && f != g ==> pos[f] != pos[g])
  }

  /** Your ticket has a value at each assigned position, inside the field's
      ranges. */
  ghost predicate FitsTicket(names: seq<string>, fields: map<string, Ranges>, your: seq<int>, pos: map<string, int>)
    requires forall f :: f in names ==> f in fields && f in pos
  {
    forall f :: f in names ==> 0 <= pos[f] < |your| && InRanges(fields[f], your[pos[f]])
  }

  /** The resolution loop of Part2: in order, each field must have exactly
      one candidate left, which your ticket must fit, and which is then taken
      from every other field. A result is the only assignment the candidates
      allow. */
  method Resolve(order: seq<string>, possible: map<string, set<int>>, fields: map<string, Ranges>, your: seq<int>)
    returns (r: Result<map<string, int>>)
    requires Distinct(order) && forall f :: f in order ==> f in possible && f in fields
    ensures r.Ok? ==> Assignment(order, possible, r.value) && FitsTicket(order, fields, your, r.value)
    ensures r.Ok? ==> forall q :: Assignment(order, possible, q) ==> q == r.value
    ensures (exists f :: f in order && possible[f] == {}) ==> r.Err?
  {
    var cur := possible;
    var pos: map<string, int> := map[];
    var i := 0;
    while i < |order|
      invariant 0 <= i <= |order|
      invariant ResolveInv(order, possible, fields, your, i, cur, pos)
    {
      var next := ResolveField(order, possible, fields, your, i, cur, pos);
      if next.Err? {
        return Err(next.msg);
      }
      cur, pos := next.value.0, next.value.1;
      i := i + 1;
    }
    InvDone(order, possible, fields, your, cur, pos);
    r := Ok(pos);
  }

  /** One round of the resolution loop, for the field order[i]. */
  method ResolveField(order: seq<string>, possible: map<string, set<int>>, fields: map<string, Ranges>,
                      your: seq<int>, i: nat, cur: map<string, set<int>>, pos: map<string, int>)
    returns (r: Result<(map<string, set<int>>, map<string, int>)>)
    requires i < |order| && ResolveInv(order, possible, fields, your, i, cur, pos)
    ensures r.Ok? ==> ResolveInv(order, possible, fields, your, i + 1, r.value.0, r.value.1)
    ensures possible[order[i]] == {} ==> r.Err?
  {
    var field := order[i];
    InvFacts(order, possible, fields, your, i, cur, pos);
    var candidates := cur[field];
    if |candidates| != 1 {
      return Err("Multiple possible values");
    }
    var theOne := Single(candidates);
    if !(0 <= theOne < |your|) {
      return Err("IndexOutOfBoundsException");
    }
    if !InRanges(fields[field], your[theOne]) {
      return Err("Impossible value");
    }
    var next := map g | g in cur :: if g != field then cur[g] - {theOne} else cur[g];
    InvStep(order, possible, fields, your, i, cur, pos, theOne, next);
    r := Ok((next, pos[field := theOne]));
  }

  /** The resolution loop's invariant after i fields. */
  ghost predicate ResolveInv(order: seq<string>, possible: map<string, set<int>>, fields: map<string, Ranges>,
                             your: seq<int>, i: nat, cur: map<string, set<int>>, pos: map<string, int>)
  {
    i <= |order| && Distinct(order) && (forall f :: f in order ==> f in possible && f in fields) &&
    cur.Keys == possible.Keys &&
    (forall f :: f in pos <==> f in order[..i]) &&
    Settled(order[..i], possible, fields, your, cur, pos) &&
    Open(order[..i], possible, cur, pos) &&
    Injective(pos) &&
    AllAgree(order, possible, i, pos)
  }

  lemma InvFacts(order: seq<string>, possible: map<string, set<int>>, fields: map<string, Ranges>,
                 your: seq<int>, i: nat, cur: map<string, set<int>>, pos: map<string, int>)
    requires i < |order| && ResolveInv(order, possible, fields, your, i, cur, pos)
    ensures order[i] in cur && order[i] in possible && order[i] in fields && order[i] !in pos
    ensures cur[order[i]] == possible[order[i]] - pos.Values
    ensures forall f :: f in order ==> f in possible
  {
    assert order[i] !in order[..i] by {
      forall k | 0 <= k < i ensures order[k] != order[i] { }
    }
    assert order[i] in order;
  }

  lemma InvStep(order: seq<string>, possible: map<string, set<int>>, fields: map<string, Ranges>,
                your: seq<int>, i: nat, cur: map<string, set<int>>, pos: map<string, int>, theOne: int,
                next: map<string, set<int>>)
    requires i < |order| && ResolveInv(order, possible, fields, your, i, cur, pos)
    requires order[i] in cur && order[i] !in pos && cur[order[i]] == possible[order[i]] - pos.Values
    requires cur[order[i]] == {theOne} && 0 <= theOne < |your| && order[i] in fields && InRanges(fields[order[i]], your[theOne])
    requires next == map g | g in cur :: if g != order[i] then cur[g] - {theOne} else cur[g]
    ensures ResolveInv(order, possible, fields, your, i + 1, next, pos[order[i] := theOne])
  {
    var field := order[i];
    assert order[..i + 1] == order[..i] + [field];
    assert field !in order[..i] by {
      forall k | 0 <= k < i ensures order[k] != field { }
    }
    Forced(order, possible, i, pos, field, theOne);
    Take(order[..i], field, possible, fields, your, cur, pos, theOne, next);
  }

  lemma InvDone(order: seq<string>, possible: map<string, set<int>>, fields: map<string, Ranges>,
                your: seq<int>, cur: map<string, set<int>>, pos: map<string, int>)
    requires ResolveInv(order, possible, fields, your, |order|, cur, pos)
    ensures Assignment(order, possible, pos) && FitsTicket(order, fields, your, pos)
    ensures forall q :: Assignment(order, possible, q) ==> q == pos
    ensures forall f :: f in order ==> possible[f] != {}
  {
    assert order[..|order|] == order;
    forall f, g | f in order && g in order && f != g ensures pos[f] != pos[g] {
      assert f in pos && g in pos;
    }
    forall q | Assignment(order, possible, q) ensures q == pos {
      assert q.Keys == pos.Keys;
    }
  }

  /** The fields already resolved: one candidate left, one of its starting
      candidates, fitting your ticket. */
  ghost predicate Settled(done: seq<string>, possible: map<string, set<int>>, fields: map<string, Ranges>,
                          your: seq<int>, cur: map<string, set<int>>, pos: map<string, int>)
  {
    forall f :: f in done ==>
      f in cur && f in pos && f in possible && f in fields && cur[f] == {pos[f]} && pos[f] in possible[f] &&
      0 <= pos[f] < |your| && InRanges(fields[f], your[pos[f]])
  }

  /** The fields still open: their starting candidates less the positions
      taken. */
  ghost predicate Open(done: seq<string>, possible: map<string, set<int>>, cur: map<string, set<int>>,
                       pos: map<string, int>)
  {
    forall g :: g in cur && g !in done ==> g in possible && cur[g] == possible[g] - pos.Values
  }

  ghost predicate Injective(pos: map<string, int>)
  {
    forall f, g :: f in pos && g in pos && f != g ==> pos[f] != pos[g]
  }

  /** The element of a one-element set. */
  method Single(s: set<int>) returns (x: int)
    requires |s| == 1
    ensures s == {x}
  {
    assert exists y :: y in s by {
      if forall y :: y !in s {
        assert false;
      }
    }
    x :| x in s;
    assert |s - {x}| == 0;
  }

  /** Taking theOne for `field` keeps the loop's invariants. */
  lemma Take(done: seq<string>, field: string, possible: map<string, set<int>>, fields: map<string, Ranges>,
             your: seq<int>, cur: map<string, set<int>>, pos: map<string, int>, theOne: int,
             next: map<string, set<int>>)
    requires field !in done && field in cur && field in possible && field in fields && field !in pos
    requires forall f :: f in pos <==> f in done
    requires Settled(done, possible, fields, your, cur, pos) && Open(done, possible, cur, pos) && Injective(pos)
    requires cur[field] == {theOne} && 0 <= theOne < |your| && InRanges(fields[field], your[theOne])
    requires next == map g | g in cur :: if g != field then cur[g] - {theOne} else cur[g]
    ensures Settled(done + [field], possible, fields, your, next, pos[field := theOne])
    ensures Open(done + [field], possible, next, pos[field := theOne])
    ensures Injective(pos[field := theOne])
  {
    assert theOne in possible[field] - pos.Values;
    ValuesUpdate(pos, field, theOne);
    TakeSettled(done, field, possible, fields, your, cur, pos, theOne, next);
    TakeOpen(done, field, possible, cur, pos, theOne, next);
    TakeInjective(pos, field, theOne);
  }

  lemma ValuesUpdate(pos: map<string, int>, field: string, theOne: int)
    requires field !in pos
    ensures pos[field := theOne].Values == pos.Values + {theOne}
  {
    var pos' := pos[field := theOne];
    forall x | x in pos'.Values ensures x in pos.Values + {theOne} {
      var k :| k in pos' && pos'[k] == x;
      if k != field { assert pos[k] == x; }
    }
    forall x | x in pos.Values + {theOne} ensures x in pos'.Values {
      if x != theOne {
        var k :| k in pos && pos[k] == x;
        assert pos'[k] == x;
      } else {
        assert pos'[field] == x;
      }
    }
  }

  lemma TakeSettled(done: seq<string>, field: string, possible: map<string, set<int>>, fields: map<string, Ranges>,
                    your: seq<int>, cur: map<string, set<int>>, pos: map<string, int>, theOne: int,
                    next: map<string, set<int>>)
    requires field !in done && field in cur && field in possible && field in fields && field !in pos
    requires Settled(done, possible, fields, your, cur, pos)
    requires theOne !in pos.Values
    requires cur[field] == {theOne} && theOne in possible[field] && 0 <= theOne < |your| && InRanges(fields[field], your[theOne])
    requires next == map g | g in cur :: if g != field then cur[g] - {theOne} else cur[g]
    ensures Settled(done + [field], possible, fields, your, next, pos[field := theOne])
  {
    var pos' := pos[field := theOne];
    forall f | f in done + [field]
      ensures f in next && f in pos' && f in possible && f in fields && next[f] == {pos'[f]} && pos'[f] in possible[f] &&
        0 <= pos'[f] < |your| && InRanges(fields[f], your[pos'[f]])
    {
      if f != field {
        assert f in done;
        assert pos[f] in pos.Values;
        assert next[f] == cur[f] - {theOne};
      }
    }
  }

  lemma TakeOpen(done: seq<string>, field: string, possible: map<string, set<int>>,
                 cur: map<string, set<int>>, pos: map<string, int>, theOne: int, next: map<string, set<int>>)
    requires field in cur && field !in pos
    requires Open(done, possible, cur, pos)
    requires next == map g | g in cur :: if g != field then cur[g] - {theOne} else cur[g]
    requires pos[field := theOne].Values == pos.Values + {theOne}
    ensures Open(done + [field], possible, next, pos[field := theOne])
  {
    forall g | g in next && g !in done + [field]
      ensures g in possible && next[g] == possible[g] - pos[field := theOne].Values
    {
      assert g !in done && g != field;
      assert next[g] == cur[g] - {theOne};
    }
  }

  lemma TakeInjective(pos: map<string, int>, field: string, theOne: int)
    requires Injective(pos) && field !in pos && theOne !in pos.Values
    ensures Injective(pos[field := theOne])
  {
    var pos' := pos[field := theOne];
    forall f, g | f in pos' && g in pos' && f != g ensures pos'[f] != pos'[g] {
      if f != field && g != field {
      } else if f == field {
        assert pos[g] in pos.Values;
      } else {
        assert pos[f] in pos.Values;
      }
    }
  }

  /** A field whose candidates, less the positions taken so far, are only
      theOne: every assignment the candidates allow gives it theOne. */
  lemma Forced(order: seq<string>, possible: map<string, set<int>>, i: nat, pos: map<string, int>,
               field: string, theOne: int)
    requires i < |order| && field == order[i] && forall f :: f in order ==> f in possible
    requires Distinct(order)
    requires forall f :: f in pos <==> f in order[..i]
    requires possible[field] - pos.Values == {theOne}
    requires AllAgree(order, possible, i, pos)
    ensures AllAgree(order, possible, i + 1, pos[field := theOne])
  {
    assert field !in order[..i] by {
      forall k | 0 <= k < i ensures order[k] != field { }
    }
    assert order[..i + 1] == order[..i] + [field];
    var pos' := pos[field := theOne];
    forall q | Assignment(order, possible, q)
      ensures forall f :: f in order[..i + 1] ==> q[f] == pos'[f]
    {
      assert q[field] in possible[field];
      assert q[field] in possible[field] - pos.Values;
    }
  }

  /** Every assignment the candidates allow agrees with pos on the first i
      fields. */
  ghost predicate AllAgree(order: seq<string>, possible: map<string, set<int>>, i: nat, pos: map<string, int>)
    requires i <= |order| && forall f :: f in order ==> f in possible
    requires forall f :: f in order[..i] ==> f in pos
  {
    forall q :: Assignment(order, possible, q) ==> forall f :: f in order[..i] ==> q[f] == pos[f]
  }

  predicate StartsWith(s: string, prefix: string) { |prefix| <= |s| && s[..|prefix|] == prefix }

  /** `filterKeys { it.startsWith("departure") }.ifEmpty { possiblePositions }`. */
  function Departures(names: seq<string>): (r: seq<string>)
    ensures forall f :: f in r <==> f in names && StartsWith(f, "departure")
  {
    if names == [] then []
    else (if StartsWith(names[0], "departure") then [names[0]] else []) + Departures(names[1..])
  }

  function Chosen(names: seq<string>): (r: seq<string>)
    ensures (exists f :: f in names && StartsWith(f, "departure")) ==>
      forall f :: f in r <==> f in names && StartsWith(f, "departure")
    ensures (forall f :: f in names ==> !StartsWith(f, "departure")) ==> r == names
  {
    var d := Departures(names);
    assert d != [] ==> d[0] in d;
    if d == [] then names else d
  }

  /** Your ticket's values at the chosen fields' positions. */
  function Picked(sel: seq<string>, pos: map<string, int>, your: seq<int>): (r: seq<int>)
    requires forall f :: f in sel ==> f in pos && 0 <= pos[f] < |your|
    ensures |r| == |sel| && forall k :: 0 <= k < |sel| ==> r[k] == your[pos[sel[k]]]
  {
    if sel == [] then [] else [your[pos[sel[0]]]] + Picked(sel[1..], pos, your)
  }

  /** Some field has no candidate position left. */
  predicate NoCandidates(st: State2)
  {
    exists f :: f in st.names && f in st.possible && st.possible[f] == {}
  }

  /** What a Part2 answer is: the product of your ticket's values at the
      chosen fields under the one assignment the candidates allow. */
  ghost predicate Answer(st: State2, v: int)
  {
    st.names != [] && (forall f :: f in st.names ==> f in st.possible && f in st.fields) &&
    exists pos :: Assignment(st.names, st.possible, pos) && FitsTicket(st.names, st.fields, st.your, pos) &&
      (forall q :: Assignment(st.names, st.possible, q) ==> q == pos) &&
      v == Product(Picked(Chosen(st.names), pos, st.your))
  }

  lemma SameMembers(a: seq<string>, b: seq<string>, possible: map<string, set<int>>, fields: map<string, Ranges>,
                    your: seq<int>, pos: map<string, int>)
    requires forall f :: f in a <==> f in b
    requires forall f :: f in a ==> f in possible && f in fields
    ensures Assignment(a, possible, pos) <==> Assignment(b, possible, pos)
    ensures (forall f :: f in a ==> f in pos) ==> (FitsTicket(a, fields, your, pos) <==> FitsTicket(b, fields, your, pos))
  {
  }

  lemma DistinctPermutation(a: seq<string>, b: seq<string>)
    requires Distinct(a) && multiset(a) == multiset(b)
    ensures Distinct(b)
  {
    forall i, j | 0 <= i < j < |b| ensures b[i] != b[j] {
      DistinctCount(a, b[i]);
      if b[i] == b[j] {
        MultisetTwo(b, i, j);
      }
    }
  }

  lemma {:induction false} MultisetTwo(s: seq<string>, i: nat, j: nat)
    requires i < j < |s| && s[i] == s[j]
    ensures multiset(s)[s[i]] >= 2
  {
    assert s == s[..i] + [s[i]] + s[i + 1..j] + [s[j]] + s[j + 1..];
  }

  lemma {:induction false} DistinctCount(s: seq<string>, x: string)
    requires Distinct(s)
    ensures multiset(s)[x] <= 1
    decreases |s|
  {
    if s != [] {
      assert s == [s[0]] + s[1..];
      assert Distinct(s[1..]) by {
        forall i, j | 0 <= i < j < |s[1..]| ensures s[1..][i] != s[1..][j] {
          assert s[1..][i] == s[i + 1] && s[1..][j] == s[j + 1];
        }
      }
      DistinctCount(s[1..], x);
      if x == s[0] {
        assert x !in s[1..] by {
          forall k | 0 <= k < |s[1..]| ensures s[1..][k] != x {
            assert s[1..][k] == s[k + 1];
          }
        }
      }
    }
  }

  /** Part2: read the fields, your ticket and the nearby rows (skipping
      those with a value no field accepts), resolve the positions, and
      multiply your values at the chosen fields. */
  method Part2(lines: seq<string>) returns (r: Result<int>)
    ensures Run2(lines).None? ==> r.Err?
    ensures r.Ok? ==> Run2(lines).Some? && Answer(Run2(lines).value, r.value)
    ensures Run2(lines).Some? && Run2(lines).value.names == [] ==> r.Err?
    ensures Run2(lines).Some? && NoCandidates(Run2(lines).value) ==> r.Err?
  {
    var st := State2("fields", [], map[], map[], []);
    var k := 0;
    while k < |lines|
      invariant 0 <= k <= |lines|
      invariant Run2(lines[..k]) == Some(st)
    {
      assert lines[..k + 1][..k] == lines[..k];
      var next := Feed(st, lines[k]);
      if next.None? {
        Stuck2(lines, k + 1);
        return Err("NumberFormatException or NoSuchElementException");
      }
      st := next.value;
      k := k + 1;
    }
    assert lines[..k] == lines;
    r := Finish(st);
  }

  /** The body of Part2's line loop. */
  method Feed(st: State2, line: string) returns (r: Option<State2>)
    requires Valid2(st)
    ensures r == Step2(st, line)
  {
    var section, names, fields, possible, your := st.section, st.names, st.fields, st.possible, st.your;
    if !IsBlank(line) {
      if ':' in line {
        var prefix, value := Prefix(line), AfterColon(line);
        if prefix == "your ticket" {
          section := "your";
        } else if prefix == "nearby tickets" {
          section := "nearby";
          possible := possible + map f | f in fields :: AllPositions(|fields|);
        } else {
          var rs := ParseRanges(Trim(value));
          if rs.None? {
            return None;
          }
          names := if prefix in fields then names else names + [prefix];
          fields := fields[prefix := rs.value];
        }
      } else if section == "your" {
        var vs := ParseInts(SplitOn(line, ','));
        if vs.None? {
          return None;
        }
        your := vs.value;
      } else if section == "nearby" {
        var vs := ParseInts(SplitOn(line, ','));
        if vs.None? {
          return None;
        }
        if !exists v :: v in vs.value && !InSomeField(fields, v) {
          var next := Eliminate(possible, names, fields, vs.value);
          if next.None? {
            return None;
          }
          possible := next.value;
        }
      }
    }
    r := Some(State2(section, names, fields, possible, your));
  }

  /** The end of Part2: sort the fields by their number of candidates,
      resolve them, and multiply your values at the chosen fields. */
  method Finish(st: State2) returns (r: Result<int>)
    requires Valid2(st)
    ensures r.Ok? ==> Answer(st, r.value)
    ensures st.names == [] ==> r.Err?
    ensures NoCandidates(st) ==> r.Err?
  {
    var names, fields, possible, your := st.names, st.fields, st.possible, st.your;
    if exists f :: f in names && f !in possible {
      return Err("NoSuchElementException");
    }
    var order := SortBySize(names, possible);
    DistinctPermutation(names, order);
    var res := Resolve(order, possible, fields, your);
    if res.Err? {
      return Err(res.msg);
    }
    var pos := res.value;
    var filtered := Chosen(names);
    if filtered == [] {
      return Err("Empty collection can't be reduced.");
    }
    FinishAnswer(st, order, pos);
    r := Ok(Product(Picked(filtered, pos, your)));
  }

  lemma FinishAnswer(st: State2, order: seq<string>, pos: map<string, int>)
    requires st.names != [] && forall f :: f in st.names ==> f in st.possible && f in st.fields
    requires forall f :: f in order <==> f in st.names
    requires Assignment(order, st.possible, pos) && FitsTicket(order, st.fields, st.your, pos)
    requires forall q :: Assignment(order, st.possible, q) ==> q == pos
    ensures forall f :: f in Chosen(st.names) ==> f in pos && 0 <= pos[f] < |st.your|
    ensures Answer(st, Product(Picked(Chosen(st.names), pos, st.your)))
  {
    forall q {
      SameMembers(order, st.names, st.possible, st.fields, st.your, q);
    }
  }
}
