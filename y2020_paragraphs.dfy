/** `toParagraphs`, which 2020 days 4 and 6 each define identically: group
    maximal runs of non-blank lines, each group joined with "\n". */
module Y2020Paragraphs {
  import opened Common

  /** `joinToString("\n")`. */
  function Join(lines: seq<string>): string
  {
    if lines == [] then ""
    else if |lines| == 1 then lines[0]
    else Join(lines[..|lines| - 1]) + "\n" + lines[|lines| - 1]
  }

  /** The generator's state after some lines: the paragraphs yielded so far
      (as lists of lines) and the paragraph being collected. */
  datatype Scan = Scan(done: seq<seq<string>>, cur: seq<string>)

  function ScanLines(lines: seq<string>): Scan
  {
    if lines == [] then Scan([], [])
    else
      var s := ScanLines(lines[..|lines| - 1]);
      var line := lines[|lines| - 1];
      if !IsBlank(line) then Scan(s.done, s.cur + [line])
      else Scan(if s.cur != [] then s.done + [s.cur] else s.done, [])
  }

  /** The paragraphs, as lists of lines, including the final unterminated one. */
  function Groups(lines: seq<string>): seq<seq<string>>
  {
    var s := ScanLines(lines);
    if s.cur != [] then s.done + [s.cur] else s.done
  }

  /** The paragraphs the generator yields. */
  function Paragraphs(lines: seq<string>): seq<string>
  {
    var g := Groups(lines);
    seq(|g|, i requires 0 <= i < |g| => Join(g[i]))
  }

  /** The generator: lines are appended to `paragraph`, which is yielded and
      reset at a blank line, and yielded once more at the end, each time only
      when it is not empty. */
  method ToParagraphs(lines: seq<string>) returns (out: seq<string>)
    ensures out == Paragraphs(lines)
  {
    out := [];
    ghost var done: seq<seq<string>> := [];
    var paragraph: seq<string> := [];
    var i := 0;
    while i < |lines|
      invariant 0 <= i <= |lines|
      invariant ScanLines(lines[..i]) == Scan(done, paragraph)
      invariant out == seq(|done|, k requires 0 <= k < |done| => Join(done[k]))
    {
      assert lines[..i + 1][..i] == lines[..i];
      if !IsBlank(lines[i]) {
        paragraph := paragraph + [lines[i]];
      } else {
        if paragraph != [] {
          out := out + [Join(paragraph)];
          done := done + [paragraph];
        }
        paragraph := [];
      }
      i := i + 1;
    }
    assert lines[..i] == lines;
    if paragraph != [] {
      out := out + [Join(paragraph)];
      done := done + [paragraph];
    }
  }

  function Flatten(g: seq<seq<string>>): seq<string>
  {
    if g == [] then [] else Flatten(g[..|g| - 1]) + g[|g| - 1]
  }

  /** The non-blank lines, in order. */
  function NonBlank(lines: seq<string>): seq<string>
  {
    if lines == [] then []
    else NonBlank(lines[..|lines| - 1]) + (if IsBlank(lines[|lines| - 1]) then [] else [lines[|lines| - 1]])
  }

  ghost predicate GoodGroups(g: seq<seq<string>>)
  {
    forall k :: 0 <= k < |g| ==> g[k] != [] && forall j :: 0 <= j < |g[k]| ==> !IsBlank(g[k][j])
  }

  /** The scan state is good: finished groups are good, the open group
      has no blank line. */
  ghost predicate ScanGood(s: Scan)
  {
    GoodGroups(s.done) && forall j :: 0 <= j < |s.cur| ==> !IsBlank(s.cur[j])
  }

  lemma {:induction false} ScanShape(lines: seq<string>)
    ensures ScanGood(ScanLines(lines))
    ensures Flatten(ScanLines(lines).done) + ScanLines(lines).cur == NonBlank(lines)
  {
    if lines != [] {
      var init := lines[..|lines| - 1];
      ScanShape(init);
      var s := ScanLines(init);
      var line := lines[|lines| - 1];
      if !IsBlank(line) {
        ScanAddLine(s, line);
      } else {
        ScanCloseGroup(s);
      }
    }
  }

  lemma ScanAddLine(s: Scan, line: string)
    requires ScanGood(s) && !IsBlank(line)
    ensures ScanGood(Scan(s.done, s.cur + [line]))
    ensures Flatten(s.done) + (s.cur + [line]) == (Flatten(s.done) + s.cur) + [line]
  {
  }

  lemma ScanCloseGroup(s: Scan)
    requires ScanGood(s)
    ensures ScanGood(Scan(if s.cur != [] then s.done + [s.cur] else s.done, []))
    ensures Flatten(if s.cur != [] then s.done + [s.cur] else s.done) == Flatten(s.done) + s.cur
  {
    if s.cur != [] {
      assert (s.done + [s.cur])[..|s.done|] == s.done;
    }
  }

  /** No paragraph is empty or holds a blank line, and together the
      paragraphs hold exactly the non-blank lines, in order. */
  lemma GroupsShape(lines: seq<string>)
    ensures GoodGroups(Groups(lines))
    ensures Flatten(Groups(lines)) == NonBlank(lines)
  {
    ScanShape(lines);
    var s := ScanLines(lines);
    if s.cur != [] {
      assert (s.done + [s.cur])[..|s.done|] == s.done;
    }
  }

  /** How one more line changes the groups: a blank line changes nothing, a
      non-blank line after a non-blank one joins that line's group, and any
      other non-blank line starts a new group. With `Groups([]) == []` this
      determines the groups: they are the maximal runs of non-blank lines. */
  lemma GroupsStep(lines: seq<string>, line: string)
    ensures IsBlank(line) ==> Groups(lines + [line]) == Groups(lines)
    ensures !IsBlank(line) && (lines == [] || IsBlank(lines[|lines| - 1])) ==>
      Groups(lines + [line]) == Groups(lines) + [[line]]
    ensures !IsBlank(line) && lines != [] && !IsBlank(lines[|lines| - 1]) ==>
      var g := Groups(lines);
      g != [] && Groups(lines + [line]) == g[..|g| - 1] + [g[|g| - 1] + [line]]
  {
    var all := lines + [line];
    assert all[..|all| - 1] == lines;
    var s := ScanLines(lines);
    assert lines != [] && !IsBlank(lines[|lines| - 1]) <==> s.cur != [] by {
      if lines != [] {
        var s0 := ScanLines(lines[..|lines| - 1]);
        assert !IsBlank(lines[|lines| - 1]) ==> s.cur == s0.cur + [lines[|lines| - 1]];
      }
    }
    if !IsBlank(line) {
      assert ScanLines(all) == Scan(s.done, s.cur + [line]);
      if s.cur == [] {
        assert s.cur + [line] == [line];
      }
    }
    if s.cur != [] {
      var g := s.done + [s.cur];
      assert g[..|g| - 1] == s.done;
    }
  }

  /** A non-blank line joins into a non-empty string. */
  lemma {:induction false} JoinNonEmpty(ls: seq<string>)
    requires ls != [] && forall j :: 0 <= j < |ls| ==> !IsBlank(ls[j])
    ensures Join(ls) != ""
  {
    if |ls| > 1 {
      assert |Join(ls)| >= |"\n"|;
    } else {
      assert !IsBlank(ls[0]);
    }
  }

  /** The generator never yields an empty paragraph. */
  lemma ParagraphsNonEmpty(lines: seq<string>)
    ensures forall k :: 0 <= k < |Paragraphs(lines)| ==> Paragraphs(lines)[k] != ""
  {
    GroupsShape(lines);
    var g := Groups(lines);
    forall k | 0 <= k < |g| ensures Join(g[k]) != "" {
      JoinNonEmpty(g[k]);
    }
  }

  function JoinFrom(lines: seq<string>): string
  {
    if lines == [] then "" else if |lines| == 1 then lines[0] else lines[0] + "\n" + JoinFrom(lines[1..])
  }

  lemma {:induction false} JoinFromIsJoin(lines: seq<string>)
    ensures JoinFrom(lines) == Join(lines)
  {
    if |lines| > 2 {
      JoinFromIsJoin(lines[1..]);
      JoinFromIsJoin(lines[..|lines| - 1]);
      JoinFromIsJoin(lines[1..][..|lines| - 2]);
      assert lines[1..][..|lines| - 2] == lines[..|lines| - 1][1..];
    }
  }

  /** Splitting a paragraph on "\n" gives back its lines, when no line holds
      a "\n" (as no line read from the input does). */
  lemma {:induction false} SplitJoin(lines: seq<string>)
    requires lines != []
    requires forall k :: 0 <= k < |lines| ==> '\n' !in lines[k]
    ensures SplitOn(Join(lines), '\n') == lines
  {
    JoinFromIsJoin(lines);
    if |lines| == 1 {
      SplitNoSep(lines[0], '\n');
    } else {
      SplitJoin(lines[1..]);
      JoinFromIsJoin(lines[1..]);
      SplitAppendSep(lines[0], JoinFrom(lines[1..]), '\n');
      assert lines[0] + "\n" + JoinFrom(lines[1..]) == lines[0] + ['\n'] + JoinFrom(lines[1..]);
    }
  }
}
