/** 2025 day 12, reading the puzzle: shape blocks closed by empty lines
    (a header such as `0:` and three rows of `#` and `.`), then one goal
    line per region, as in `12x5: 1 0 1 0 2 2`. */
module Y2025Day12Input {
  import opened Common
  import opened Y2025Day12Shapes

  // ---------------------------------------------------------------- chunks

  function Flatten(chunks: seq<seq<string>>): seq<string>
  {
    if chunks == [] then [] else chunks[0] + Flatten(chunks[1..])
  }

  /** A chunk of `slice_after(&:empty?)`: not empty, with an empty line at
      most at its end. */
  predicate Chunk(c: seq<string>)
  {
    c != [] && forall j :: 0 <= j < |c| - 1 ==> c[j] != ""
  }

  /** A chunk that closes with an empty line. */
  predicate Closed(c: seq<string>)
  {
    c != [] && c[|c| - 1] == ""
  }

  /** `Enumerable#slice_after(&:empty?)`: the lines cut after every empty
      line. The chunks put back together are the lines, and every chunk
      but the last ends with an empty line. */
  function SliceAfterEmpty(lines: seq<string>): (chunks: seq<seq<string>>)
    ensures Flatten(chunks) == lines
    ensures forall i :: 0 <= i < |chunks| ==> Chunk(chunks[i])
    ensures forall i :: 0 <= i < |chunks| - 1 ==> Closed(chunks[i])
    ensures chunks == [] <==> lines == []
  {
    if lines == [] then []
    else
      var rest := SliceAfterEmpty(lines[1..]);
      if lines[0] == "" || rest == [] then [[lines[0]]] + rest
      else
        var first := [lines[0]] + rest[0];
        assert forall j :: 1 <= j < |first| ==> first[j] == rest[0][j - 1];
        assert Flatten(rest) == rest[0] + Flatten(rest[1..]);
        [first] + rest[1..]
  }

  /** `reject(&:empty?)`. */
  function NonEmpty(c: seq<string>): (r: seq<string>)
    ensures forall l :: l in r <==> l in c && l != ""
    ensures |r| <= |c|
  {
    if c == [] then []
    else if c[0] == "" then NonEmpty(c[1..])
    else [c[0]] + NonEmpty(c[1..])
  }

  // ---------------------------------------------------------------- strings

  /** The position of the first c in s. */
  function IndexOf(s: string, c: char): (i: nat)
    requires c in s
    ensures i < |s| && s[i] == c && c !in s[..i]
  {
    if s[0] == c then 0
    else
      var i := 1 + IndexOf(s[1..], c);
      assert s[..i] == [s[0]] + s[1..][..i - 1];
      i
  }

  /** `String#sub(c, '')`: the first c removed. */
  function RemoveFirst(s: string, c: char): (r: string)
    ensures c !in s ==> r == s
    ensures c in s ==> r == s[..IndexOf(s, c)] + s[IndexOf(s, c) + 1..]
  {
    if c in s then s[..IndexOf(s, c)] + s[IndexOf(s, c) + 1..] else s
  }

  /** The number of ASCII digits at the front of s. */
  function DigitRun(s: string): (n: nat)
    ensures n <= |s| && AllDigits(s[..n]) && (n < |s| ==> !IsDigit(s[n]))
  {
    if s != [] && IsDigit(s[0]) then
      var n := 1 + DigitRun(s[1..]);
      assert forall k :: 1 <= k < n ==> s[..n][k] == s[1..][..n - 1][k - 1];
      n
    else 0
  }

  /** `String#to_i`: leading white space skipped, an optional sign, then
      the leading digits; 0 when there are none. */
  function ToI(s: string): int
  {
    var t := TrimStart(s);
    if t != [] && (t[0] == '-' || t[0] == '+') then
      var v := DigitsValue(t[1..][..DigitRun(t[1..])]) as int;
      if t[0] == '-' then -v else v
    else DigitsValue(t[..DigitRun(t)])
  }

  lemma DigitRunWhole(d: string, rest: string)
    requires AllDigits(d) && (rest == [] || !IsDigit(rest[0]))
    ensures DigitRun(d + rest) == |d| && (d + rest)[..|d|] == d
  {
    if d != [] {
      assert (d + rest)[1..] == d[1..] + rest;
      DigitRunWhole(d[1..], rest);
    }
  }

  /** `to_i` reads back a written integer followed by a non-digit. */
  lemma ToIString(i: int, rest: string)
    requires rest == [] || !IsDigit(rest[0])
    ensures ToI(IntString(i) + rest) == i
  {
    var n: nat := if i < 0 then -i else i;
    NatStringValue(n);
    var d := NatString(n);
    DigitRunWhole(d, rest);
    assert IsDigit(d[0]);
    if i < 0 {
      var s := "-" + d + rest;
      assert IntString(i) + rest == s;
      assert s[0] == '-';
      assert TrimStart(s) == s;
      assert s[1..] == d + rest;
    } else {
      var s := d + rest;
      assert IntString(i) + rest == s;
      assert s[0] == d[0];
      assert TrimStart(s) == s;
    }
  }

  /** Ruby's `split(' ')`, awk style: the maximal runs of non-space
      characters. */
  function WordAt(s: string): (w: string)
    ensures |w| <= |s| && w == s[..|w|] && (forall k :: 0 <= k < |w| ==> !IsSpace(w[k]))
    ensures |w| < |s| ==> IsSpace(s[|w|])
  {
    if s == [] || IsSpace(s[0]) then [] else [s[0]] + WordAt(s[1..])
  }

  function Words(s: string): (ws: seq<string>)
    decreases |s|
  {
    if s == [] then []
    else if IsSpace(s[0]) then Words(s[1..])
    else
      var w := WordAt(s);
      [w] + Words(s[|w|..])
  }

  predicate Spaceless(w: string) { w != [] && forall k :: 0 <= k < |w| ==> !IsSpace(w[k]) }

  lemma {:induction false} WordAtWhole(w: string, rest: string)
    requires forall k :: 0 <= k < |w| ==> !IsSpace(w[k])
    requires rest == [] || IsSpace(rest[0])
    ensures WordAt(w + rest) == w
  {
    if w != [] {
      assert (w + rest)[1..] == w[1..] + rest;
      WordAtWhole(w[1..], rest);
    }
  }

  /** `split(' ')` reads back words joined by single spaces. */
  lemma {:induction false} WordsJoin(ws: seq<string>)
    requires forall k :: 0 <= k < |ws| ==> Spaceless(ws[k])
    ensures Words(JoinWith(" ", ws)) == ws
  {
    if |ws| == 1 {
      WordAtWhole(ws[0], []);
      assert ws[0] + [] == ws[0];
      assert ws[0][|ws[0]|..] == [];
    } else if |ws| > 1 {
      var rest := JoinWith(" ", ws[1..]);
      var s := ws[0] + " " + rest;
      WordAtWhole(ws[0], " " + rest);
      assert ws[0] + (" " + rest) == s;
      assert s[|ws[0]|..] == " " + rest;
      assert (" " + rest)[1..] == rest;
      WordsJoin(ws[1..]);
      assert [ws[0]] + ws[1..] == ws;
    }
  }

  // ---------------------------------------------------------------- shapes

  /** The cells marked '#' in the three rows of a shape block. */
  function Cells(rows: seq<string>): set<Point>
    requires |rows| >= 3
  {
    set x: int, y: int | 0 <= x <= 2 && 0 <= y <= 2 && x < |rows[y]| && rows[y][x] == '#' :: Point(x, y)
  }

  /** One shape block of `parse_input`: the number is `to_i` of the header
      without its first '#'; a block of fewer than four non-empty lines
      reads a row of nil, which raises. */
  function AtomOf(chunk: seq<string>): (r: Result<Atom>)
    ensures r.Ok? ==> InBox(r.value.points)
  {
    var slice := NonEmpty(chunk);
    if |slice| < 4 then Err("NoMethodError")
    else Ok(Atom(ToI(RemoveFirst(slice[0], '#')), Cells(slice[1..4])))
  }

  /** `Atom#to_s`: the header `#<id>:` and the three rows. */
  function AtomText(a: Atom): seq<string>
  {
    ["#" + IntString(a.id) + ":", Row(a, 0), Row(a, 1), Row(a, 2)]
  }

  function Row(a: Atom, y: int): string
  {
    [Mark(a, 0, y), Mark(a, 1, y), Mark(a, 2, y)]
  }

  function Mark(a: Atom, x: int, y: int): char
  {
    if Point(x, y) in a.points then '#' else '.'
  }

  /** Reading back a shape's text, closed by an empty line, gives the
      shape. */
  lemma AtomRoundTrip(a: Atom)
    requires InBox(a.points)
    ensures AtomOf(AtomText(a) + [""]) == Ok(a)
  {
    var t := AtomText(a);
    IntStringPlain(a.id);
    NonEmptyClosed(t);
    HeaderId(a.id);
    assert t[1..4] == [Row(a, 0), Row(a, 1), Row(a, 2)];
    RowsCells(a);
  }

  /** The three rows of a shape's text mark exactly its cells. */
  lemma RowsCells(a: Atom)
    requires InBox(a.points)
    ensures Cells([Row(a, 0), Row(a, 1), Row(a, 2)]) == a.points
  {
    var rows := [Row(a, 0), Row(a, 1), Row(a, 2)];
    forall p | p in a.points
      ensures p in Cells(rows)
    {
      assert rows[p.y][p.x] == Mark(a, p.x, p.y);
    }
    forall p | p in Cells(rows)
      ensures p in a.points
    {
      assert rows[p.y][p.x] == Mark(a, p.x, p.y);
    }
  }

  /** Dropping empty lines from lines that are not empty, followed by an
      empty one, gives those lines back. */
  lemma {:induction false} NonEmptyClosed(t: seq<string>)
    requires forall k :: 0 <= k < |t| ==> t[k] != ""
    ensures NonEmpty(t + [""]) == t
  {
    if t != [] {
      assert (t + [""])[1..] == t[1..] + [""];
      NonEmptyClosed(t[1..]);
    }
  }

  /** The header `#<id>:` reads back as the number. */
  lemma HeaderId(id: int)
    ensures ToI(RemoveFirst("#" + IntString(id) + ":", '#')) == id
  {
    var body := IntString(id) + ":";
    var h := ['#'] + body;
    assert "#" + IntString(id) + ":" == h;
    assert IndexOf(h, '#') == 0;
    assert h[..0] + h[1..] == body;
    ToIString(id, ":");
  }

  lemma IntStringPlain(i: int)
    ensures IntString(i) != [] && IntString(i)[0] != '#'
    ensures forall k :: 0 <= k < |IntString(i)| ==> IntString(i)[k] != '#' && !IsSpace(IntString(i)[k])
  {
    var n: nat := if i < 0 then -i else i;
    NatStringValue(n);
    var d := NatString(n);
    var s := if i < 0 then "-" + d else d;
    assert IntString(i) == s;
    forall k | 0 <= k < |s|
      ensures s[k] != '#' && !IsSpace(s[k])
    {
      if i >= 0 {
        assert IsDigit(d[k]);
      } else if k > 0 {
        assert s[k] == d[k - 1] && IsDigit(d[k - 1]);
      }
    }
  }

  // ---------------------------------------------------------------- goals

  /** `Goal`: the region's size and the wanted count of each shape, by
      position on the line. The `sizes` hash keeps only the positive
      counts and answers 0 for the rest. */
  datatype Goal = Goal(width: nat, height: nat, counts: seq<int>)

  /** The three groups of `/(\d+)x(\d+): (.*)/`. */
  datatype GoalMatch = GoalMatch(width: string, height: string, rest: string)

  /** The characters before the first newline (`.` stops at one). */
  function UntilNewline(s: string): (r: string)
    ensures '\n' !in s ==> r == s
  {
    if s == [] || s[0] == '\n' then [] else [s[0]] + UntilNewline(s[1..])
  }

  /** The pattern anchored at the front of s. `\d+` cannot give back a
      digit usefully, since an 'x' or ':' must follow it. */
  function MatchAt(s: string): Option<GoalMatch>
  {
    var a := DigitRun(s);
    if a == 0 || a >= |s| || s[a] != 'x' then None
    else
      var t := s[a + 1..];
      var b := DigitRun(t);
      if b == 0 || b + 1 >= |t| || t[b] != ':' || t[b + 1] != ' ' then None
      else Some(GoalMatch(s[..a], t[..b], UntilNewline(t[b + 2..])))
  }

  /** `=~`: the leftmost position where the pattern matches. */
  function FindGoal(s: string): Option<GoalMatch>
  {
    if s == [] then None
    else if MatchAt(s).Some? then MatchAt(s)
    else FindGoal(s[1..])
  }

  function ToIs(ws: seq<string>): (r: seq<int>)
    ensures |r| == |ws| && forall k :: 0 <= k < |ws| ==> r[k] == ToI(ws[k])
  {
    if ws == [] then [] else [ToI(ws[0])] + ToIs(ws[1..])
  }

  /** One goal line. Without a match the groups are nil and `nil.split`
      raises. */
  function GoalOf(line: string): Result<Goal>
  {
    match FindGoal(line)
    case None => Err("NoMethodError")
    case Some(m) => Ok(Goal(DigitsValue(m.width), DigitsValue(m.height), ToIs(Words(m.rest))))
  }

  function IntTexts(xs: seq<int>): (ts: seq<string>)
    ensures |ts| == |xs| && forall k :: 0 <= k < |xs| ==> ts[k] == IntString(xs[k])
  {
    if xs == [] then [] else [IntString(xs[0])] + IntTexts(xs[1..])
  }

  /** A goal line as the puzzle writes it: `<w>x<h>: <counts>`. */
  function GoalText(g: Goal): string
  {
    NatString(g.width) + "x" + NatString(g.height) + ": " + JoinWith(" ", IntTexts(g.counts))
  }

  lemma IntTextsPlain(xs: seq<int>)
    ensures forall k :: 0 <= k < |xs| ==> Spaceless(IntTexts(xs)[k]) && '\n' !in IntTexts(xs)[k]
    ensures forall k :: 0 <= k < |xs| ==> ToI(IntTexts(xs)[k]) == xs[k]
  {
    forall k | 0 <= k < |xs|
      ensures Spaceless(IntTexts(xs)[k]) && '\n' !in IntTexts(xs)[k] && ToI(IntTexts(xs)[k]) == xs[k]
    {
      IntStringPlain(xs[k]);
      ToIString(xs[k], []);
      assert IntString(xs[k]) + [] == IntString(xs[k]);
    }
  }

  lemma {:induction false} JoinNoNewline(ts: seq<string>)
    requires forall k :: 0 <= k < |ts| ==> '\n' !in ts[k]
    ensures '\n' !in JoinWith(" ", ts)
  {
    if |ts| > 1 {
      JoinNoNewline(ts[1..]);
    }
  }

  /** A goal line reads back as its goal. */
  lemma GoalRoundTrip(g: Goal)
    ensures GoalOf(GoalText(g)) == Ok(g)
  {
    var ws := NatString(g.width);
    var hs := NatString(g.height);
    var body := JoinWith(" ", IntTexts(g.counts));
    NatStringValue(g.width);
    NatStringValue(g.height);
    IntTextsPlain(g.counts);
    JoinNoNewline(IntTexts(g.counts));
    MatchText(ws, hs, body);
    WordsJoin(IntTexts(g.counts));
    assert ToIs(IntTexts(g.counts)) == g.counts;
  }

  /** The pattern matches `<digits>x<digits>: <rest>` at its front. */
  lemma MatchText(ws: string, hs: string, body: string)
    requires ws != [] && hs != [] && AllDigits(ws) && AllDigits(hs) && '\n' !in body
    ensures FindGoal(ws + "x" + hs + ": " + body) == Some(GoalMatch(ws, hs, body))
  {
    var t := hs + (": " + body);
    GoalTextSplit(ws, hs, body);
    MatchAtParts(ws, t, hs, body);
  }

  lemma GoalTextSplit(ws: string, hs: string, body: string)
    ensures ws + "x" + hs + ": " + body == ws + (['x'] + (hs + (": " + body)))
  {
  }

  lemma MatchAtParts(ws: string, t: string, hs: string, body: string)
    requires ws != [] && hs != [] && AllDigits(ws) && AllDigits(hs) && '\n' !in body
    requires t == hs + (": " + body)
    ensures MatchAt(ws + (['x'] + t)) == Some(GoalMatch(ws, hs, body))
  {
    var s := ws + (['x'] + t);
    DigitRunWhole(ws, ['x'] + t);
    assert s[|ws|] == 'x' && s[|ws| + 1..] == t;
    DigitRunWhole(hs, ": " + body);
    assert t[|hs|] == ':' && t[|hs| + 1] == ' ' && t[|hs| + 2..] == body;
    assert UntilNewline(body) == body;
    assert s[..|ws|] == ws && t[..|hs|] == hs;
  }

  // ---------------------------------------------------------------- the whole input

  /** What `parse_input` returns: the shapes in block order and the goals in
      line order. */
  datatype Puzzle = Puzzle(atoms: seq<Atom>, goals: seq<Goal>)

  function AtomsOf(chunks: seq<seq<string>>): (r: Result<seq<Atom>>)
    ensures r.Ok? <==> forall k :: 0 <= k < |chunks| ==> AtomOf(chunks[k]).Ok?
    ensures r.Ok? ==> |r.value| == |chunks| && forall k :: 0 <= k < |chunks| ==> AtomOf(chunks[k]) == Ok(r.value[k])
  {
    if chunks == [] then Ok([])
    else
      match AtomOf(chunks[0])
      case Err(e) => Err(e)
      case Ok(a) =>
        match AtomsOf(chunks[1..])
        case Err(e) => Err(e)
        case Ok(rest) => Ok([a] + rest)
  }

  function GoalsOf(lines: seq<string>): (r: Result<seq<Goal>>)
    ensures r.Ok? <==> forall k :: 0 <= k < |lines| ==> GoalOf(lines[k]).Ok?
    ensures r.Ok? ==> |r.value| == |lines| && forall k :: 0 <= k < |lines| ==> GoalOf(lines[k]) == Ok(r.value[k])
  {
    if lines == [] then Ok([])
    else
      match GoalOf(lines[0])
      case Err(e) => Err(e)
      case Ok(g) =>
        match GoalsOf(lines[1..])
        case Err(e) => Err(e)
        case Ok(rest) => Ok([g] + rest)
  }

  /** `parse_input`: every chunk but the last is a shape block, every line
      of the last chunk a goal. Without lines `slices.last` is nil, which
      raises. */
  function ParseInput(lines: seq<string>): Result<Puzzle>
  {
    var slices := SliceAfterEmpty(lines);
    if slices == [] then Err("NoMethodError")
    else
      match AtomsOf(slices[..|slices| - 1])
      case Err(e) => Err(e)
      case Ok(atoms) =>
        match GoalsOf(slices[|slices| - 1])
        case Err(e) => Err(e)
        case Ok(goals) => Ok(Puzzle(atoms, goals))
  }

  /** Chunks with an empty line only at their ends, every one but the last
      closed by one, are what `slice_after` cuts their lines into. */
  lemma {:induction false} SliceFlatten(c: seq<string>, rest: seq<seq<string>>)
    requires Chunk(c) && (rest != [] ==> Closed(c))
    requires forall i :: 0 <= i < |rest| ==> Chunk(rest[i])
    requires forall i :: 0 <= i < |rest| - 1 ==> Closed(rest[i])
    ensures SliceAfterEmpty(c + Flatten(rest)) == [c] + rest
    decreases |c| + |Flatten(rest)|
  {
    var lines := c + Flatten(rest);
    assert lines[1..] == c[1..] + Flatten(rest);
    if |c| == 1 {
      assert c[1..] + Flatten(rest) == Flatten(rest);
      if rest != [] {
        assert Flatten(rest) == rest[0] + Flatten(rest[1..]);
        SliceFlatten(rest[0], rest[1..]);
        assert [rest[0]] + rest[1..] == rest;
      }
    } else {
      var c' := c[1..];
      assert Chunk(c') by {
        assert forall j :: 0 <= j < |c'| - 1 ==> c'[j] == c[j + 1];
      }
      SliceFlatten(c', rest);
      assert [c[0]] + c' == c;
    }
  }

  /** The chunk condition of `SliceFlatten` for a whole sequence. */
  lemma SliceAll(chunks: seq<seq<string>>)
    requires chunks != [] && forall i :: 0 <= i < |chunks| ==> Chunk(chunks[i])
    requires forall i :: 0 <= i < |chunks| - 1 ==> Closed(chunks[i])
    ensures SliceAfterEmpty(Flatten(chunks)) == chunks
  {
    var rest := chunks[1..];
    assert forall i :: 0 <= i < |rest| ==> rest[i] == chunks[i + 1];
    SliceFlatten(chunks[0], rest);
    assert [chunks[0]] + rest == chunks;
  }

  /** Each shape's text closed by an empty line. */
  function AtomChunks(atoms: seq<Atom>): (cs: seq<seq<string>>)
    ensures |cs| == |atoms|
  {
    seq(|atoms|, k requires 0 <= k < |atoms| => AtomText(atoms[k]) + [""])
  }

  function GoalLines(goals: seq<Goal>): (ls: seq<string>)
    ensures |ls| == |goals|
  {
    seq(|goals|, k requires 0 <= k < |goals| => GoalText(goals[k]))
  }

  lemma AtomChunksRead(atoms: seq<Atom>)
    requires forall a :: a in atoms ==> InBox(a.points)
    ensures forall k :: 0 <= k < |atoms| ==> Chunk(AtomChunks(atoms)[k]) && Closed(AtomChunks(atoms)[k])
    ensures AtomsOf(AtomChunks(atoms)) == Ok(atoms)
  {
    var cs := AtomChunks(atoms);
    forall k | 0 <= k < |atoms|
      ensures Chunk(cs[k]) && Closed(cs[k]) && AtomOf(cs[k]) == Ok(atoms[k])
    {
      IntStringPlain(atoms[k].id);
      assert atoms[k] in atoms;
      AtomRoundTrip(atoms[k]);
    }
    var r := AtomsOf(cs);
    assert r.Ok?;
    assert r.value == atoms;
  }

  lemma GoalLinesRead(goals: seq<Goal>)
    requires goals != []
    ensures Chunk(GoalLines(goals)) && GoalsOf(GoalLines(goals)) == Ok(goals)
  {
    var ls := GoalLines(goals);
    forall k | 0 <= k < |goals|
      ensures ls[k] != "" && GoalOf(ls[k]) == Ok(goals[k])
    {
      GoalRoundTrip(goals[k]);
    }
    var r := GoalsOf(ls);
    assert r.Ok?;
    assert r.value == goals;
  }

  /** The lines of a puzzle: each shape's text closed by an empty line,
      then the goal lines. */
  function PuzzleText(p: Puzzle): seq<string>
  {
    Flatten(AtomChunks(p.atoms) + [GoalLines(p.goals)])
  }

  /** A puzzle with at least one goal reads back from its text. */
  lemma PuzzleRoundTrip(p: Puzzle)
    requires p.goals != [] && forall a :: a in p.atoms ==> InBox(a.points)
    ensures ParseInput(PuzzleText(p)) == Ok(p)
  {
    var ac := AtomChunks(p.atoms);
    var chunks := ac + [GoalLines(p.goals)];
    AtomChunksRead(p.atoms);
    GoalLinesRead(p.goals);
    ChunksAppend(ac, GoalLines(p.goals));
    SliceAll(chunks);
    assert SliceAfterEmpty(PuzzleText(p)) == chunks;
    assert chunks[..|chunks| - 1] == ac;
    assert chunks[|chunks| - 1] == GoalLines(p.goals);
  }

  lemma ChunksAppend(ac: seq<seq<string>>, last: seq<string>)
    requires forall k :: 0 <= k < |ac| ==> Chunk(ac[k]) && Closed(ac[k])
    requires Chunk(last)
    ensures forall i :: 0 <= i < |ac + [last]| ==> Chunk((ac + [last])[i])
    ensures forall i :: 0 <= i < |ac + [last]| - 1 ==> Closed((ac + [last])[i])
  {
  }
}
