/** 2020 day 5: boarding passes, decoded by halving seat ranges. */
module Y2020Dec05 {
  import opened Common

  /** An inclusive range lo..hi, as Kotlin's IntRange. */
  datatype Range = Range(lo: int, hi: int)

  /** One halving step: `low` keeps the lower half, `high` the upper, any
      other character throws. */
  function Halve(r: Range, c: char, low: char, high: char): Result<Range>
  {
    var size := r.hi - r.lo + 1;
    if c == low then Ok(Range(r.lo, r.hi - size / 2))
    else if c == high then Ok(Range(r.lo + size / 2, r.hi))
    else Err("Unexpected character")
  }

  /** The range after halving by every character of cs. */
  function Narrow(r: Range, cs: string, low: char, high: char): Result<Range>
  {
    if cs == [] then Ok(r)
    else
      match Narrow(r, cs[..|cs| - 1], low, high)
      case Err(m) => Err(m)
      case Ok(r') => Halve(r', cs[|cs| - 1], low, high)
  }

  /** The `forEach` that reassigns the range once per character. */
  method NarrowLoop(r: Range, cs: string, low: char, high: char) returns (res: Result<Range>)
    ensures res == Narrow(r, cs, low, high)
  {
    var cur := r;
    var i := 0;
    while i < |cs|
      invariant 0 <= i <= |cs|
      invariant Narrow(r, cs[..i], low, high) == Ok(cur)
    {
      assert cs[..i + 1][..i] == cs[..i];
      var next := Halve(cur, cs[i], low, high);
      if next.Err? {
        res := next;
        NarrowErrSticks(r, cs, i + 1, low, high);
        return;
      }
      cur := next.value;
      i := i + 1;
    }
    assert cs[..i] == cs;
    res := Ok(cur);
  }

  lemma {:induction false} NarrowErrSticks(r: Range, cs: string, n: nat, low: char, high: char)
    requires n <= |cs| && Narrow(r, cs[..n], low, high).Err?
    ensures Narrow(r, cs, low, high) == Narrow(r, cs[..n], low, high)
  {
    if n < |cs| {
      assert cs[..|cs| - 1][..n] == cs[..n];
      NarrowErrSticks(r, cs[..|cs| - 1], n, low, high);
    } else {
      assert cs[..n] == cs;
    }
  }

  /** The value of cs read as a binary number with `high` as 1. */
  function Binary(cs: string, high: char): nat
  {
    if cs == [] then 0 else 2 * Binary(cs[..|cs| - 1], high) + (if cs[|cs| - 1] == high then 1 else 0)
  }

  function Pow2(n: nat): nat { if n == 0 then 1 else 2 * Pow2(n - 1) }

  lemma {:induction false} BinaryBound(cs: string, high: char)
    ensures Binary(cs, high) < Pow2(|cs|)
  {
    if cs != [] { BinaryBound(cs[..|cs| - 1], high); }
  }

  /** Halving a range of 2^(n+k) seats by n valid characters leaves the
      2^k seats starting at lo + 2^k times the characters' binary value. */
  lemma {:induction false} NarrowIsBinary(lo: int, cs: string, k: nat, low: char, high: char)
    requires low != high
    requires forall i :: 0 <= i < |cs| ==> cs[i] == low || cs[i] == high
    ensures Narrow(Range(lo, lo + Pow2(|cs| + k) - 1), cs, low, high) ==
      Ok(Range(lo + Binary(cs, high) * Pow2(k), lo + Binary(cs, high) * Pow2(k) + Pow2(k) - 1))
  {
    if cs != [] {
      var init := cs[..|cs| - 1];
      NarrowIsBinary(lo, init, k + 1, low, high);
      assert |init| + (k + 1) == |cs| + k;
      var b := Binary(init, high);
      var p := Pow2(k);
      assert Pow2(k + 1) == 2 * p;
      Doubling(b, p);
      var start := lo + (2 * b) * p;
      assert Narrow(Range(lo, lo + Pow2(|cs| + k) - 1), init, low, high) == Ok(Range(start, start + 2 * p - 1));
      assert Binary(cs, high) == 2 * b + (if cs[|cs| - 1] == high then 1 else 0);
    }
  }

  lemma Doubling(b: int, p: int)
    ensures b * (2 * p) == (2 * b) * p
    ensures (2 * b + 1) * p == (2 * b) * p + p
  {
  }

  /** `seatIds` for one line: seven row characters, then the rest as
      column characters; a range left wider than one seat throws. */
  method SeatId(line: string) returns (r: Result<int>)
    ensures r == SeatIdOf(line)
  {
    var rows := NarrowLoop(Range(0, 127), line[..Min2(7, |line|)], 'F', 'B');
    if rows.Err? { return Err(rows.msg); }
    var cols := NarrowLoop(Range(0, 7), line[Min2(7, |line|)..], 'L', 'R');
    if cols.Err? { return Err(cols.msg); }
    if rows.value.lo != rows.value.hi || cols.value.lo != cols.value.hi {
      return Err("Left over");
    }
    r := Ok(rows.value.lo * 8 + cols.value.lo);
  }

  function Min2(a: int, b: int): int { if a < b then a else b }

  /** The value the decoding of one line has. */
  function SeatIdOf(line: string): Result<int>
  {
    var k := Min2(7, |line|);
    match Narrow(Range(0, 127), line[..k], 'F', 'B')
    case Err(m) => Err(m)
    case Ok(rows) =>
      match Narrow(Range(0, 7), line[k..], 'L', 'R')
      case Err(m) => Err(m)
      case Ok(cols) =>
        if rows.lo != rows.hi || cols.lo != cols.hi then Err("Left over")
        else Ok(rows.lo * 8 + cols.lo)
  }

  /** A 7+3 pass decodes to 8 times its F/B binary value plus its L/R binary
      value, which lies in 0..1023. */
  lemma SeatIdIsBinary(line: string)
    requires |line| == 10
    requires forall i :: 0 <= i < 7 ==> line[i] in {'F', 'B'}
    requires forall i :: 7 <= i < 10 ==> line[i] in {'L', 'R'}
    ensures SeatIdOf(line) == Ok(8 * Binary(line[..7], 'B') + Binary(line[7..], 'R'))
    ensures 0 <= SeatIdOf(line).value < 1024
  {
    var rowText, colText := line[..7], line[7..];
    assert forall i :: 0 <= i < |rowText| ==> rowText[i] == 'F' || rowText[i] == 'B';
    assert forall i :: 0 <= i < |colText| ==> colText[i] == 'L' || colText[i] == 'R';
    assert Pow2(7) == 128 && Pow2(3) == 8;
    var row, col := Binary(rowText, 'B'), Binary(colText, 'R');
    OneSeatLeft(rowText, 'F', 'B');
    OneSeatLeft(colText, 'L', 'R');
    assert Narrow(Range(0, 127), rowText, 'F', 'B') == Ok(Range(row, row));
    assert Narrow(Range(0, 7), colText, 'L', 'R') == Ok(Range(col, col));
    BinaryBound(rowText, 'B');
    BinaryBound(colText, 'R');
    assert Min2(7, |line|) == 7;
    assert SeatIdOf(line) == Ok(row * 8 + col);
  }

  /** Halving all 2^n seats by n valid characters leaves the one seat their
      binary value names. */
  lemma OneSeatLeft(cs: string, low: char, high: char)
    requires low != high
    requires forall i :: 0 <= i < |cs| ==> cs[i] == low || cs[i] == high
    ensures Narrow(Range(0, Pow2(|cs|) - 1), cs, low, high) == Ok(Range(Binary(cs, high), Binary(cs, high)))
  {
    NarrowIsBinary(0, cs, 0, low, high);
    assert Binary(cs, high) * Pow2(0) == Binary(cs, high);
  }

  /** A character outside F/B among the first seven is an error. */
  lemma BadRowCharacter(line: string, i: nat)
    requires i < 7 && i < |line| && line[i] !in {'F', 'B'}
    ensures SeatIdOf(line).Err?
  {
    var k := Min2(7, |line|);
    var cs := line[..k];
    assert cs[..i + 1][i] == line[i];
    if Narrow(Range(0, 127), cs[..i], 'F', 'B').Ok? {
      assert Narrow(Range(0, 127), cs[..i + 1], 'F', 'B').Err? by {
        assert cs[..i + 1][..i] == cs[..i];
      }
      NarrowErrSticks(Range(0, 127), cs, i + 1, 'F', 'B');
    } else {
      NarrowErrSticks(Range(0, 127), cs, i, 'F', 'B');
    }
  }

  /** `seatIds`: every line decoded, or the first line's error. */
  method SeatIds(lines: seq<string>) returns (r: Result<seq<int>>)
    ensures r.Ok? <==> forall i :: 0 <= i < |lines| ==> SeatIdOf(lines[i]).Ok?
    ensures r.Ok? ==> |r.value| == |lines|
    ensures r.Ok? ==> forall i :: 0 <= i < |lines| ==> r.value[i] == SeatIdOf(lines[i]).value
    ensures r.Err? ==> exists i :: 0 <= i < |lines| && SeatIdOf(lines[i]).Err? && r.msg == SeatIdOf(lines[i]).msg
  {
    var ids: seq<int> := [];
    var i := 0;
    while i < |lines|
      invariant 0 <= i <= |lines| && |ids| == i
      invariant forall j :: 0 <= j < i ==> SeatIdOf(lines[j]).Ok? && ids[j] == SeatIdOf(lines[j]).value
    {
      var id := SeatId(lines[i]);
      if id.Err? {
        return Err(id.msg);
      }
      ids := ids + [id.value];
      i := i + 1;
    }
    return Ok(ids);
  }

  /** Part1 over the input lines: a bad line is the answer's error. */
  method Solve1(lines: seq<string>) returns (r: Result<Option<int>>)
    ensures r.Ok? <==> forall i :: 0 <= i < |lines| ==> SeatIdOf(lines[i]).Ok?
    ensures r.Ok? ==> (r.value.None? <==> lines == [])
    ensures r.Ok? && r.value.Some? ==>
      (exists i :: 0 <= i < |lines| && r.value.value == SeatIdOf(lines[i]).value) &&
      forall i :: 0 <= i < |lines| ==> SeatIdOf(lines[i]).value <= r.value.value
  {
    var ids := SeatIds(lines);
    if ids.Err? {
      return Err(ids.msg);
    }
    var best := Part1(ids.value);
    if best.Some? {
      var j :| 0 <= j < |ids.value| && ids.value[j] == best.value;
    }
    return Ok(best);
  }

  /** Part2 over the input lines: a bad line is the answer's error. */
  method Solve2(lines: seq<string>) returns (r: Result<Option<int>>, ids: seq<int>)
    ensures r.Ok? <==> forall i :: 0 <= i < |lines| ==> SeatIdOf(lines[i]).Ok?
    ensures r.Ok? ==> |ids| == |lines|
    ensures r.Ok? ==> forall i :: 0 <= i < |lines| ==> ids[i] == SeatIdOf(lines[i]).value
    ensures r.Ok? && r.value.Some? && Distinct(ids) ==>
      FreeSeat(ids, r.value.value)
  {
    var decoded := SeatIds(lines);
    if decoded.Err? {
      return Err(decoded.msg), [];
    }
    ids := decoded.value;
    var gap := Part2(ids);
    return Ok(gap), ids;
  }

  /** Part1: the largest seat id, or "Empty input" (None) for no passes. */
  function Part1(ids: seq<int>): (r: Option<int>)
    ensures r.None? <==> ids == []
    ensures r.Some? ==> r.value in ids && forall i :: 0 <= i < |ids| ==> ids[i] <= r.value
  {
    if ids == [] then None else Some(Max(ids))
  }

  /** Seat s is free, the seat after it is taken, and so is some seat below it. */
  predicate FreeSeat(ids: seq<int>, s: int)
  {
    s !in ids && s + 1 in ids && exists a :: a in ids && a < s
  }

  /** Position k is the first whose id, less k, differs from the first id. */
  predicate FirstGap(sorted: seq<int>, k: int)
  {
    0 < k < |sorted| && sorted[k] - k != sorted[0] && forall j :: 0 <= j < k ==> sorted[j] - j == sorted[0]
  }

  /** v is one less than the id at the first gap. */
  predicate GapBelow(sorted: seq<int>, v: int)
  {
    exists k :: 0 < k < |sorted| && FirstGap(sorted, k) && v == sorted[k] - 1
  }

  /** The ids run on from the first one without a gap. */
  predicate NoGap(sorted: seq<int>)
  {
    forall j :: 0 <= j < |sorted| ==> sorted[j] == sorted[0] + j
  }

  /** Part2's loop over the sorted ids: the first id whose distance from the
      first id differs from its index gives the answer id - 1. */
  method FindGap(sorted: seq<int>) returns (r: Option<int>)
    ensures r.Some? ==> GapBelow(sorted, r.value)
    ensures r.None? ==> NoGap(sorted)
  {
    var index := 0;
    while index < |sorted|
      invariant 0 <= index <= |sorted|
      invariant forall j :: 0 <= j < index ==> sorted[j] - j == sorted[0]
    {
      if sorted[index] - index != sorted[0] {
        assert FirstGap(sorted, index);
        return Some(sorted[index] - 1);
      }
      index := index + 1;
    }
    forall j | 0 <= j < |sorted| ensures sorted[j] == sorted[0] + j {
      assert sorted[j] - j == sorted[0];
    }
    return None;
  }

  /** For distinct ids in ascending order, the answer is a missing id lying
      strictly between two consecutive present ids. */
  lemma GapIsMissingSeat(sorted: seq<int>, k: nat)
    requires forall i, j :: 0 <= i < j < |sorted| ==> sorted[i] < sorted[j]
    requires 0 < k < |sorted| && sorted[k] - k != sorted[0]
    requires forall j :: 0 <= j < k ==> sorted[j] - j == sorted[0]
    ensures sorted[k] - 1 !in sorted
    ensures sorted[k - 1] < sorted[k] - 1 < sorted[k]
  {
    assert sorted[k - 1] == sorted[0] + k - 1;
    forall m | 0 <= m < |sorted| ensures sorted[m] != sorted[k] - 1 {
      if m < k {
        assert sorted[m] == sorted[0] + m;
      } else if m > k {
        assert sorted[m] > sorted[k];
      }
    }
  }

  predicate Distinct(ids: seq<int>)
  {
    forall i, j :: 0 <= i < j < |ids| ==> ids[i] != ids[j]
  }

  /** Part2: sort the ids and find the gap; "Open seat ID not found" is None.
      For distinct ids the answer is a free seat with taken seats on both sides. */
  method Part2(ids: seq<int>) returns (r: Option<int>)
    ensures r.Some? ==> GapBelow(SortInts(ids), r.value)
    ensures r.None? ==> NoGap(SortInts(ids))
    ensures r.Some? && Distinct(ids) ==> FreeSeat(ids, r.value)
  {
    var sorted := SortInts(ids);
    r := FindGap(sorted);
    if r.Some? && Distinct(ids) {
      var k: nat :| 0 < k < |sorted| && FirstGap(sorted, k) && r.value == sorted[k] - 1;
      GapIsFree(ids, sorted, k);
    }
  }

  /** With distinct ids, the seat before the first gap is free. */
  lemma GapIsFree(ids: seq<int>, sorted: seq<int>, k: nat)
    requires Distinct(ids) && sorted == SortInts(ids) && FirstGap(sorted, k)
    ensures FreeSeat(ids, sorted[k] - 1)
  {
    GapInIds(ids, sorted, k);
    assert sorted[k - 1] in ids && sorted[k - 1] < sorted[k] - 1;
  }

  /** The gap FindGap reports in the sorted ids is a free seat of `ids` with
      taken seats on both sides, when the ids are distinct. */
  lemma GapInIds(ids: seq<int>, sorted: seq<int>, k: nat)
    requires Distinct(ids) && sorted == SortInts(ids)
    requires 0 < k < |sorted| && sorted[k] - k != sorted[0]
    requires forall j :: 0 <= j < k ==> sorted[j] - j == sorted[0]
    ensures sorted[k] - 1 !in ids && sorted[k] in ids && sorted[k - 1] in ids
    ensures sorted[k - 1] < sorted[k] - 1
  {
    DistinctSorted(ids, sorted);
    GapIsMissingSeat(sorted, k);
    assert sorted[k] in multiset(sorted) && sorted[k - 1] in multiset(sorted);
    assert sorted[k] - 1 !in multiset(sorted);
    assert sorted[k - 1] in multiset(ids);
  }

  lemma DistinctCounts(ids: seq<int>, x: int)
    requires Distinct(ids)
    ensures multiset(ids)[x] <= 1
  {
    if x in ids {
      var a :| 0 <= a < |ids| && ids[a] == x;
      assert ids == ids[..a] + [x] + ids[a + 1..];
      assert x !in ids[..a];
      assert x !in ids[a + 1..];
    }
  }

  lemma TwoPositions(s: seq<int>, i: nat, j: nat)
    requires i < j < |s|
    ensures multiset(s)[s[i]] >= 1 + (if s[j] == s[i] then 1 else 0)
  {
    assert s == s[..j] + s[j..];
    assert s[i] in multiset(s[..j]);
    assert s[j] in multiset(s[j..]);
  }

  lemma DistinctSorted(ids: seq<int>, sorted: seq<int>)
    requires Distinct(ids)
    requires SortedInts(sorted) && multiset(sorted) == multiset(ids)
    ensures forall i, j :: 0 <= i < j < |sorted| ==> sorted[i] < sorted[j]
  {
    forall i, j | 0 <= i < j < |sorted| ensures sorted[i] < sorted[j] {
      DistinctCounts(ids, sorted[i]);
      TwoPositions(sorted, i, j);
    }
  }
}
