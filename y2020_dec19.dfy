/** 2020 day 19: message rules (a quoted string, a sequence of rule ids,
    or alternatives) and the count of messages rule 0 matches whole. */
module Y2020Dec19 {
  import opened Common

  datatype Rule = Str(str: string) | Seq(ids: seq<int>) | Or(choices: seq<Rule>)

  // ---------------------------------------------------------------------
  // Rule.parse

  predicate StartsWithQuote(text: string) { |text| >= 1 && text[0] == '"' }

  /** `removeSurrounding("\"")`: strips the quotes only when both are there
      and do not overlap. */
  function RemoveQuotes(text: string): string
  {
    if |text| >= 2 && text[0] == '"' && text[|text| - 1] == '"' then text[1..|text| - 1] else text
  }

  /** `split(Regex("\\s+"))`: the pieces between maximal white-space runs;
      leading and trailing runs give empty pieces. */
  function SplitSpaces(s: string): (pieces: seq<string>)
    ensures |pieces| >= 1
    decreases |s|
  {
    if s == [] then [[]]
    else if IsSpace(s[0]) then
      TrimStartSuffix(s[1..]);
      [[]] + SplitSpaces(TrimStart(s[1..]))
    else
      var rest := SplitSpaces(s[1..]);
      [[s[0]] + rest[0]] + rest[1..]
  }

  /** `split(Regex("\\s*\\|\\s*"))`: the pieces between the bars, with the
      white space next to each bar removed. */
  function OrPieces(text: string): (ps: seq<string>)
    ensures |ps| == |SplitOn(text, '|')|
  {
    var raw := SplitOn(text, '|');
    seq(|raw|, i requires 0 <= i < |raw| => Strip(raw[i], i > 0, i < |raw| - 1))
  }

  function Strip(p: string, front: bool, back: bool): string
  {
    var q := if back then TrimEnd(p) else p;
    if front then TrimStart(q) else q
  }

  /** `map(String::toInt)`: every piece must be an integer. */
  function ParseIds(ps: seq<string>): (r: Result<seq<int>>)
    ensures r.Ok? ==> |r.value| == |ps|
  {
    if ps == [] then Ok([])
    else
      match ParseInt(ps[0])
      case None => Err("NumberFormatException")
      case Some(id) =>
        match ParseIds(ps[1..])
        case Err(m) => Err(m)
        case Ok(rest) => Ok([id] + rest)
  }

  /** `parse` of a text without '|'. */
  function ParseAlt(text: string): Result<Rule>
  {
    if StartsWithQuote(text) then Ok(Str(RemoveQuotes(text)))
    else match ParseIds(SplitSpaces(text))
      case Err(m) => Err(m)
      case Ok(ids) => Ok(Seq(ids))
  }

  function ParseChoices(ps: seq<string>): (r: Result<seq<Rule>>)
    ensures r.Ok? ==> |r.value| == |ps|
  {
    if ps == [] then Ok([])
    else
      match ParseAlt(ps[0])
      case Err(m) => Err(m)
      case Ok(a) =>
        match ParseChoices(ps[1..])
        case Err(m) => Err(m)
        case Ok(rest) => Ok([a] + rest)
  }

  /** `Rule.parse`: quoted text is a string, text with '|' alternatives
      (each piece parsed again), anything else a sequence of ids. */
  function ParseRule(text: string): Result<Rule>
  {
    if StartsWithQuote(text) then Ok(Str(RemoveQuotes(text)))
    else if '|' in text then
      match ParseChoices(OrPieces(text))
      case Err(m) => Err(m)
      case Ok(cs) => Ok(Or(cs))
    else ParseAlt(text)
  }

  /** A piece of an alternative has no '|', so parsing it again is the
      bar-free case. */
  lemma PieceParse(p: string)
    requires '|' !in p
    ensures ParseRule(p) == ParseAlt(p)
  {
  }

  /** The constructor `parse` picks: quotes first, then '|'. */
  lemma ParseKind(text: string)
    ensures StartsWithQuote(text) ==> ParseRule(text) == Ok(Str(RemoveQuotes(text)))
    ensures !StartsWithQuote(text) && '|' in text && ParseRule(text).Ok? ==>
      ParseRule(text).value.Or? && |ParseRule(text).value.choices| >= 2
    ensures !StartsWithQuote(text) && '|' !in text && ParseRule(text).Ok? ==>
      ParseRule(text).value.Seq? && |ParseRule(text).value.ids| == |SplitSpaces(text)|
  {
    if !StartsWithQuote(text) && '|' in text {
      SplitHasSep(text, '|');
    }
  }

  // Written-out rules, for the round trips.

  function JoinSpaces(ps: seq<string>): string
  {
    if |ps| <= 1 then (if ps == [] then "" else ps[0]) else ps[0] + " " + JoinSpaces(ps[1..])
  }

  function IdTexts(ids: seq<int>): (ts: seq<string>)
    ensures |ts| == |ids|
  {
    seq(|ids|, i requires 0 <= i < |ids| => IntString(ids[i]))
  }

  function SeqText(ids: seq<int>): string
  {
    JoinSpaces(IdTexts(ids))
  }

  function QuotedText(s: string): string
  {
    "\"" + s + "\""
  }

  predicate Word(p: string)
  {
    p != [] && forall i :: 0 <= i < |p| ==> !IsSpace(p[i])
  }

  lemma {:induction false} SplitSpacesWord(p: string, t: string)
    requires forall i :: 0 <= i < |p| ==> !IsSpace(p[i])
    requires t == [] || IsSpace(t[0])
    ensures SplitSpaces(p + t) == [p + SplitSpaces(t)[0]] + SplitSpaces(t)[1..]
    decreases |p|
  {
    if p == [] {
      assert p + t == t;
    } else {
      assert (p + t)[1..] == p[1..] + t;
      SplitSpacesWord(p[1..], t);
      assert [p[0]] + (p[1..] + SplitSpaces(t)[0]) == p + SplitSpaces(t)[0];
    }
  }

  lemma SplitSpacesGap(j: string)
    requires j != [] && !IsSpace(j[0])
    ensures SplitSpaces(" " + j) == [[]] + SplitSpaces(j)
  {
    assert (" " + j)[1..] == j;
  }

  /** Splitting words joined by single spaces gives the words back. */
  lemma {:induction false} SplitSpacesJoin(ps: seq<string>)
    requires |ps| >= 1 && forall k :: 0 <= k < |ps| ==> Word(ps[k])
    ensures SplitSpaces(JoinSpaces(ps)) == ps
    decreases |ps|
  {
    if |ps| == 1 {
      SplitSpacesWord(ps[0], []);
      assert ps[0] + [] == ps[0];
    } else {
      var j := JoinSpaces(ps[1..]);
      SplitSpacesJoin(ps[1..]);
      assert Word(ps[1..][0]);
      JoinSpacesStart(ps[1..]);
      SplitSpacesGap(j);
      assert JoinSpaces(ps) == ps[0] + (" " + j);
      SplitSpacesWord(ps[0], " " + j);
      assert ps[0] + [] == ps[0];
      assert ps == [ps[0]] + ps[1..];
    }
  }

  lemma {:induction false} JoinSpacesStart(ps: seq<string>)
    requires |ps| >= 1 && ps[0] != [] && forall k :: 0 <= k < |ps| ==> Word(ps[k])
    ensures JoinSpaces(ps) != [] && JoinSpaces(ps)[0] == ps[0][0]
  {
  }

  lemma NatStringWord(n: nat)
    ensures Word(NatString(n)) && NatString(n)[0] != '"'
    ensures forall k :: 0 <= k < |NatString(n)| ==> NatString(n)[k] != '|'
  {
    NatStringValue(n);
  }

  lemma IntStringWord(i: int)
    ensures Word(IntString(i)) && IntString(i)[0] != '"'
    ensures forall k :: 0 <= k < |IntString(i)| ==> IntString(i)[k] != '|'
    ensures !IsSpace(IntString(i)[|IntString(i)| - 1])
  {
    if i < 0 {
      var d := NatString(-i);
      NatStringWord(-i);
      assert IntString(i) == "-" + d;
      assert forall k :: 1 <= k < |IntString(i)| ==> IntString(i)[k] == d[k - 1];
    } else {
      NatStringWord(i);
    }
  }

  lemma {:induction false} JoinSpacesNoBar(ps: seq<string>)
    requires forall k :: 0 <= k < |ps| ==> '|' !in ps[k]
    ensures '|' !in JoinSpaces(ps)
    decreases |ps|
  {
    if |ps| > 1 {
      JoinSpacesNoBar(ps[1..]);
    }
  }

  lemma {:induction false} JoinSpacesEnd(ps: seq<string>)
    requires |ps| >= 1 && forall k :: 0 <= k < |ps| ==> Word(ps[k])
    ensures JoinSpaces(ps) != [] && !IsSpace(JoinSpaces(ps)[|JoinSpaces(ps)| - 1])
    decreases |ps|
  {
    if |ps| > 1 {
      JoinSpacesEnd(ps[1..]);
    }
  }

  lemma {:induction false} ParseIdsTexts(ids: seq<int>)
    ensures ParseIds(IdTexts(ids)) == Ok(ids)
    decreases |ids|
  {
    if ids != [] {
      ParseIntString(ids[0]);
      assert IdTexts(ids)[1..] == IdTexts(ids[1..]);
      ParseIdsTexts(ids[1..]);
      assert [ids[0]] + ids[1..] == ids;
    }
  }

  /** The facts about a written-out id sequence its round trip needs. */
  lemma SeqTextShape(ids: seq<int>)
    requires ids != []
    ensures SeqText(ids) != [] && !StartsWithQuote(SeqText(ids)) && '|' !in SeqText(ids)
    ensures !IsSpace(SeqText(ids)[0]) && !IsSpace(SeqText(ids)[|SeqText(ids)| - 1])
    ensures SplitSpaces(SeqText(ids)) == IdTexts(ids)
  {
    var ts := IdTexts(ids);
    forall k | 0 <= k < |ts| ensures Word(ts[k]) && ts[k][0] != '"' && '|' !in ts[k] {
      IntStringWord(ids[k]);
    }
    assert Word(ts[0]);
    JoinSpacesStart(ts);
    JoinSpacesEnd(ts);
    JoinSpacesNoBar(ts);
    SplitSpacesJoin(ts);
  }

  /** An id sequence written with single spaces parses back. */
  lemma SeqRoundTrip(ids: seq<int>)
    requires ids != []
    ensures ParseRule(SeqText(ids)) == Ok(Seq(ids))
  {
    SeqTextShape(ids);
    ParseIdsTexts(ids);
  }

  /** A quoted string parses back to itself. */
  lemma StrRoundTrip(s: string)
    ensures ParseRule(QuotedText(s)) == Ok(Str(s))
  {
    assert QuotedText(s)[1..|QuotedText(s)| - 1] == s;
  }

  // Alternatives written out with " | ".

  /** A rule that can stand as one alternative of an Or line. */
  predicate Simple(a: Rule)
  {
    match a
    case Str(s) => '|' !in s
    case Seq(ids) => ids != []
    case Or(_) => false
  }

  function AltText(a: Rule): string
    requires Simple(a)
  {
    match a
    case Str(s) => QuotedText(s)
    case Seq(ids) => SeqText(ids)
  }

  function JoinBars(ts: seq<string>): string
    requires |ts| >= 1
  {
    if |ts| == 1 then ts[0] else ts[0] + " | " + JoinBars(ts[1..])
  }

  function AltTexts(alts: seq<Rule>): (ts: seq<string>)
    requires forall k :: 0 <= k < |alts| ==> Simple(alts[k])
    ensures |ts| == |alts|
  {
    seq(|alts|, i requires 0 <= i < |alts| => AltText(alts[i]))
  }

  /** What `split` on a bar pattern sees before the spaces are removed. */
  function Padded(ts: seq<string>): (ps: seq<string>)
    ensures |ps| == |ts|
  {
    seq(|ts|, i requires 0 <= i < |ts| => (if i > 0 then " " else "") + ts[i] + (if i < |ts| - 1 then " " else ""))
  }

  lemma SplitOnCons(c: char, x: string, sep: char)
    requires c != sep
    ensures SplitOn([c] + x, sep) == [[c] + SplitOn(x, sep)[0]] + SplitOn(x, sep)[1..]
  {
    assert ([c] + x)[1..] == x;
  }

  lemma {:induction false} SplitJoinBars(ts: seq<string>)
    requires |ts| >= 1 && forall k :: 0 <= k < |ts| ==> '|' !in ts[k]
    ensures SplitOn(JoinBars(ts), '|') == Padded(ts)
    decreases |ts|
  {
    if |ts| == 1 {
      SplitNoSep(ts[0], '|');
      assert Padded(ts) == [ts[0]] by {
        assert "" + ts[0] + "" == ts[0];
      }
    } else {
      var x := JoinBars(ts[1..]);
      SplitJoinBars(ts[1..]);
      assert JoinBars(ts) == (ts[0] + " ") + ['|'] + (" " + x);
      assert '|' !in ts[0] + " ";
      SplitAppendSep(ts[0] + " ", " " + x, '|');
      SplitOnCons(' ', x, '|');
      PaddedCons(ts);
    }
  }

  lemma PaddedCons(ts: seq<string>)
    requires |ts| >= 2
    ensures var p := Padded(ts[1..]); Padded(ts) == [ts[0] + " "] + [" " + p[0]] + p[1..]
  {
    var p := Padded(ts[1..]);
    var q := [ts[0] + " "] + [" " + p[0]] + p[1..];
    forall i | 0 <= i < |ts| ensures Padded(ts)[i] == q[i] {
      if i == 0 {
        assert Padded(ts)[0] == "" + ts[0] + " ";
      } else if i == 1 {
        assert p[0] == "" + ts[1] + (if 1 < |ts| - 1 then " " else "");
      } else {
        assert p[i - 1] == " " + ts[i] + (if i < |ts| - 1 then " " else "");
      }
    }
  }

  predicate Tight(t: string)
  {
    t != [] && !IsSpace(t[0]) && !IsSpace(t[|t| - 1])
  }

  lemma TrimEndSpace(p: string)
    requires p != [] && !IsSpace(p[|p| - 1])
    ensures TrimEnd(p + " ") == p
  {
    assert (p + " ")[..|p|] == p;
  }

  lemma TrimStartSpace(t: string)
    requires t != [] && !IsSpace(t[0])
    ensures TrimStart(" " + t) == t
  {
    assert (" " + t)[1..] == t;
  }

  lemma StripPadded(t: string, front: bool, back: bool)
    requires Tight(t)
    ensures Strip((if front then " " else "") + t + (if back then " " else ""), front, back) == t
  {
    var p := (if front then " " else "") + t;
    assert p != [] && p[|p| - 1] == t[|t| - 1];
    if back {
      TrimEndSpace(p);
    } else {
      assert p + "" == p;
    }
    if front {
      TrimStartSpace(t);
    } else {
      assert p == t;
    }
  }

  lemma PieceOfJoin(ts: seq<string>, i: nat)
    requires |ts| >= 1 && i < |ts| && Tight(ts[i])
    requires SplitOn(JoinBars(ts), '|') == Padded(ts)
    ensures OrPieces(JoinBars(ts))[i] == ts[i]
  {
    var raw := SplitOn(JoinBars(ts), '|');
    assert OrPieces(JoinBars(ts))[i] == Strip(raw[i], i > 0, i < |raw| - 1);
    assert raw[i] == (if i > 0 then " " else "") + ts[i] + (if i < |ts| - 1 then " " else "");
    StripPadded(ts[i], i > 0, i < |ts| - 1);
  }

  lemma OrPiecesJoin(ts: seq<string>)
    requires |ts| >= 2 && forall k :: 0 <= k < |ts| ==> '|' !in ts[k] && Tight(ts[k])
    ensures OrPieces(JoinBars(ts)) == ts && '|' in JoinBars(ts)
  {
    SplitJoinBars(ts);
    forall i | 0 <= i < |ts| ensures OrPieces(JoinBars(ts))[i] == ts[i] {
      PieceOfJoin(ts, i);
    }
    if '|' !in JoinBars(ts) {
      SplitNoSep(JoinBars(ts), '|');
    }
  }

  lemma AltShape(a: Rule)
    requires Simple(a)
    ensures '|' !in AltText(a) && Tight(AltText(a)) && ParseAlt(AltText(a)) == Ok(a)
  {
    if a.Seq? {
      SeqTextShape(a.ids);
      ParseIdsTexts(a.ids);
    } else {
      StrRoundTrip(a.str);
    }
  }

  lemma {:induction false} ParseChoicesTexts(alts: seq<Rule>)
    requires forall k :: 0 <= k < |alts| ==> Simple(alts[k])
    ensures ParseChoices(AltTexts(alts)) == Ok(alts)
    decreases |alts|
  {
    if alts != [] {
      var ts := AltTexts(alts);
      AltTextsCons(alts);
      AltShape(alts[0]);
      forall k | 0 <= k < |alts[1..]| ensures Simple(alts[1..][k]) {
        assert alts[1..][k] == alts[k + 1];
      }
      ParseChoicesTexts(alts[1..]);
      assert ParseChoices(ts) == Ok([alts[0]] + alts[1..]);
      assert [alts[0]] + alts[1..] == alts;
    }
  }

  lemma AltTextsCons(alts: seq<Rule>)
    requires alts != [] && forall k :: 0 <= k < |alts| ==> Simple(alts[k])
    ensures AltTexts(alts) != [] && AltTexts(alts)[0] == AltText(alts[0])
    ensures AltTexts(alts)[1..] == AltTexts(alts[1..])
  {
  }

  /** Two or more alternatives written with " | " parse back, provided
      the first is not quoted (a line starting with a quote is a string
      whatever follows). */
  lemma OrRoundTrip(alts: seq<Rule>)
    requires |alts| >= 2 && alts[0].Seq? && forall k :: 0 <= k < |alts| ==> Simple(alts[k])
    ensures ParseRule(JoinBars(AltTexts(alts))) == Ok(Or(alts))
  {
    var ts := AltTexts(alts);
    forall k | 0 <= k < |ts| ensures '|' !in ts[k] && Tight(ts[k]) {
      AltShape(alts[k]);
    }
    OrPiecesJoin(ts);
    ParseChoicesTexts(alts);
    SeqTextShape(alts[0].ids);
    assert JoinBars(ts)[0] == ts[0][0];
  }

  // ---------------------------------------------------------------------
  // matches

  /** `text.take(n)`. */
  function Take(text: string, n: nat): string
  {
    if n <= |text| then text[..n] else text
  }

  /** `text.drop(n)`. */
  function Drop(text: string, n: nat): string
  {
    if n <= |text| then text[n..] else []
  }

  /** `matches`: the lengths of the prefixes of text the rule derives, in
      the order the search finds them, repeats included. A missing rule id
      fails as `getValue` does; every call spends one unit of fuel, and
      running out stands for the stack overflow of a search that does not
      end. */
  function Matches(r: Rule, text: string, rules: map<int, Rule>, fuel: nat): Result<seq<nat>>
    decreases fuel, 0
  {
    if fuel == 0 then Err("StackOverflowError")
    else match r
      case Str(s) => Ok(if s == Take(text, |s|) then [|s|] else [])
      case Seq(ids) =>
        if text == [] || ids == [] then Ok([])
        else if ids[0] !in rules then Err("NoSuchElementException")
        else if |ids| == 1 then Matches(rules[ids[0]], text, rules, fuel - 1)
        else
          (match Matches(rules[ids[0]], text, rules, fuel - 1)
           case Err(m) => Err(m)
           case Ok(firsts) => SeqRest(firsts, ids[1..], text, rules, fuel - 1))
      case Or(cs) => OrAll(cs, text, rules, fuel - 1)
  }

  function Shift(k: nat, ls: seq<nat>): (r: seq<nat>)
    ensures |r| == |ls| && forall i :: 0 <= i < |ls| ==> r[i] == k + ls[i]
  {
    seq(|ls|, i requires 0 <= i < |ls| => k + ls[i])
  }

  /** The `flatMap` of a longer Seq: for each first length, that length
      plus each match of the remaining ids on the rest of the text. */
  function SeqRest(lens: seq<nat>, rest: seq<int>, text: string, rules: map<int, Rule>, fuel: nat): Result<seq<nat>>
    decreases fuel, 1, |lens|
  {
    if lens == [] then Ok([])
    else
      match Matches(Seq(rest), Drop(text, lens[0]), rules, fuel)
      case Err(m) => Err(m)
      case Ok(ms) =>
        match SeqRest(lens[1..], rest, text, rules, fuel)
        case Err(m) => Err(m)
        case Ok(more) => Ok(Shift(lens[0], ms) + more)
  }

  /** Or: the choices' results concatenated in order. */
  function OrAll(cs: seq<Rule>, text: string, rules: map<int, Rule>, fuel: nat): Result<seq<nat>>
    decreases fuel, 1, |cs|
  {
    if cs == [] then Ok([])
    else
      match Matches(cs[0], text, rules, fuel)
      case Err(m) => Err(m)
      case Ok(ms) =>
        match OrAll(cs[1..], text, rules, fuel)
        case Err(m) => Err(m)
        case Ok(more) => Ok(ms + more)
  }

  /** Str matches exactly when the text starts with the string. */
  lemma StrMatches(s: string, text: string, rules: map<int, Rule>, fuel: nat)
    requires fuel > 0
    ensures Matches(Str(s), text, rules, fuel) == Ok(if |s| <= |text| && text[..|s|] == s then [|s|] else [])
  {
  }

  // The derivation semantics the search is measured against.

  /** w is derived from r by a derivation of height at most n. */
  ghost predicate Gen(r: Rule, w: string, rules: map<int, Rule>, n: nat)
    decreases n
  {
    n > 0 &&
    match r
    case Str(s) => w == s
    case Seq(ids) =>
      |ids| >= 1 && ids[0] in rules &&
      if |ids| == 1 then Gen(rules[ids[0]], w, rules, n - 1)
      else exists k :: 0 <= k <= |w| && Gen(rules[ids[0]], w[..k], rules, n - 1) && Gen(Seq(ids[1..]), w[k..], rules, n - 1)
    case Or(cs) => exists i :: 0 <= i < |cs| && Gen(cs[i], w, rules, n - 1)
  }

  ghost predicate Derives(r: Rule, w: string, rules: map<int, Rule>)
  {
    exists n :: Gen(r, w, rules, n)
  }

  predicate IsPrefix(w: string, text: string)
  {
    |w| <= |text| && text[..|w|] == w
  }

  /** Soundness: every length found is a prefix the rule derives. */
  lemma {:induction false} MatchesSound(r: Rule, text: string, rules: map<int, Rule>, fuel: nat)
    ensures Matches(r, text, rules, fuel).Ok? ==>
      forall l :: l in Matches(r, text, rules, fuel).value ==> l <= |text| && Gen(r, text[..l], rules, fuel)
    decreases fuel, 0
  {
    if fuel > 0 && Matches(r, text, rules, fuel).Ok? {
      match r
      case Str(s) =>
      case Seq(ids) =>
        if text != [] && ids != [] && |ids| > 1 {
          var firsts := Matches(rules[ids[0]], text, rules, fuel - 1).value;
          MatchesSound(rules[ids[0]], text, rules, fuel - 1);
          SeqRestSound(firsts, ids[1..], text, rules, fuel - 1);
          forall l | l in Matches(r, text, rules, fuel).value ensures l <= |text| && Gen(r, text[..l], rules, fuel) {
            var k :| k in firsts && k <= l <= |text| && Gen(Seq(ids[1..]), text[k..l], rules, fuel - 1);
            assert text[..l][..k] == text[..k] && text[..l][k..] == text[k..l];
          }
        } else if text != [] && ids != [] {
          MatchesSound(rules[ids[0]], text, rules, fuel - 1);
        }
      case Or(cs) =>
        OrAllSound(cs, text, rules, fuel - 1);
    }
  }

  /** Length l of text is reached by rest after one of the first lengths. */
  ghost predicate RestFrom(lens: seq<nat>, rest: seq<int>, text: string, rules: map<int, Rule>, fuel: nat, l: int)
  {
    exists k :: k in lens && k <= l <= |text| && Gen(Seq(rest), text[k..l], rules, fuel)
  }

  lemma {:induction false} SeqRestSound(lens: seq<nat>, rest: seq<int>, text: string, rules: map<int, Rule>, fuel: nat)
    requires forall k :: k in lens ==> k <= |text|
    ensures SeqRest(lens, rest, text, rules, fuel).Ok? ==>
      forall l :: l in SeqRest(lens, rest, text, rules, fuel).value ==>
        exists k :: k in lens && k <= l <= |text| && Gen(Seq(rest), text[k..l], rules, fuel)
    decreases fuel, 1, |lens|
  {
    if lens != [] && SeqRest(lens, rest, text, rules, fuel).Ok? {
      var k := lens[0];
      var tail := Drop(text, k);
      MatchesSound(Seq(rest), tail, rules, fuel);
      assert forall k :: k in lens[1..] ==> k in lens;
      SeqRestSound(lens[1..], rest, text, rules, fuel);
      var ms := Matches(Seq(rest), tail, rules, fuel).value;
      var more := SeqRest(lens[1..], rest, text, rules, fuel).value;
      assert SeqRest(lens, rest, text, rules, fuel).value == Shift(k, ms) + more;
      forall l | l in Shift(k, ms) ensures RestFrom(lens, rest, text, rules, fuel, l) {
        ShiftSound(lens, rest, text, rules, fuel, ms, l);
      }
      forall l | l in more ensures RestFrom(lens, rest, text, rules, fuel, l) {
        var j :| j in lens[1..] && j <= l <= |text| && Gen(Seq(rest), text[j..l], rules, fuel);
        assert j in lens;
      }
    }
  }

  /** One length shifted from the matches after the first length. */
  lemma ShiftSound(lens: seq<nat>, rest: seq<int>, text: string, rules: map<int, Rule>, fuel: nat, ms: seq<nat>, l: nat)
    requires lens != [] && lens[0] <= |text| && l in Shift(lens[0], ms)
    requires forall m :: m in ms ==> m <= |Drop(text, lens[0])| && Gen(Seq(rest), Drop(text, lens[0])[..m], rules, fuel)
    ensures RestFrom(lens, rest, text, rules, fuel, l)
  {
    var k := lens[0];
    var i :| 0 <= i < |ms| && l == k + ms[i];
    assert ms[i] in ms;
    assert Drop(text, k)[..ms[i]] == text[k..l];
  }

  lemma {:induction false} OrAllSound(cs: seq<Rule>, text: string, rules: map<int, Rule>, fuel: nat)
    ensures OrAll(cs, text, rules, fuel).Ok? ==>
      forall l :: l in OrAll(cs, text, rules, fuel).value ==>
        l <= |text| && exists i :: 0 <= i < |cs| && Gen(cs[i], text[..l], rules, fuel)
    decreases fuel, 1, |cs|
  {
    if cs != [] && OrAll(cs, text, rules, fuel).Ok? {
      MatchesSound(cs[0], text, rules, fuel);
      OrAllSound(cs[1..], text, rules, fuel);
      forall l | l in OrAll(cs, text, rules, fuel).value
        ensures l <= |text| && exists i :: 0 <= i < |cs| && Gen(cs[i], text[..l], rules, fuel)
      {
        if l !in Matches(cs[0], text, rules, fuel).value {
          var i :| 0 <= i < |cs[1..]| && Gen(cs[1..][i], text[..l], rules, fuel);
          assert cs[1..][i] == cs[i + 1];
        }
      }
    }
  }

  /** No quoted string of the grammar is empty. */
  predicate StrsNonEmpty(r: Rule)
  {
    match r
    case Str(s) => s != []
    case Seq(_) => true
    case Or(cs) => forall i :: 0 <= i < |cs| ==> StrsNonEmpty(cs[i])
  }

  predicate NonEmptyRules(rules: map<int, Rule>)
  {
    forall id :: id in rules ==> StrsNonEmpty(rules[id])
  }

  /** Without empty strings, every derived word is non-empty. */
  lemma {:induction false} GenNonEmpty(r: Rule, w: string, rules: map<int, Rule>, n: nat)
    requires NonEmptyRules(rules) && StrsNonEmpty(r) && Gen(r, w, rules, n)
    ensures w != []
    decreases n
  {
    match r
    case Str(s) =>
    case Seq(ids) =>
      var id := ids[0];
      assert id in rules;
      assert StrsNonEmpty(rules[id]);
      if |ids| == 1 {
        GenNonEmpty(rules[id], w, rules, n - 1);
      } else {
        var k :| 0 <= k <= |w| && Gen(rules[id], w[..k], rules, n - 1) && Gen(Seq(ids[1..]), w[k..], rules, n - 1);
        GenNonEmpty(rules[id], w[..k], rules, n - 1);
      }
    case Or(cs) =>
      var i :| 0 <= i < |cs| && Gen(cs[i], w, rules, n - 1);
      GenNonEmpty(cs[i], w, rules, n - 1);
  }

  /** Completeness: when the search finishes and no string is empty, it
      finds every prefix the rule derives. */
  lemma {:induction false} MatchesComplete(r: Rule, text: string, rules: map<int, Rule>, fuel: nat, w: string, n: nat)
    requires NonEmptyRules(rules) && StrsNonEmpty(r)
    requires Matches(r, text, rules, fuel).Ok? && Gen(r, w, rules, n) && IsPrefix(w, text)
    ensures |w| in Matches(r, text, rules, fuel).value
    decreases n, 2
  {
    match r
    case Str(s) =>
    case Seq(ids) =>
      GenNonEmpty(r, w, rules, n);
      if |ids| == 1 {
        CompleteSingle(ids, text, rules, fuel, w, n);
      } else {
        CompleteSeq(ids, text, rules, fuel, w, n);
      }
    case Or(cs) =>
      var i :| 0 <= i < |cs| && Gen(cs[i], w, rules, n - 1);
      OrAllComplete(cs, text, rules, fuel - 1, i, w, n - 1);
  }

  lemma {:induction false} CompleteSingle(ids: seq<int>, text: string, rules: map<int, Rule>, fuel: nat, w: string, n: nat)
    requires NonEmptyRules(rules) && |ids| == 1 && text != []
    requires Matches(Seq(ids), text, rules, fuel).Ok? && Gen(Seq(ids), w, rules, n) && IsPrefix(w, text)
    ensures |w| in Matches(Seq(ids), text, rules, fuel).value
    decreases n, 1
  {
    var id := ids[0];
    assert id in rules && Gen(rules[id], w, rules, n - 1);
    MatchesComplete(rules[id], text, rules, fuel - 1, w, n - 1);
  }

  lemma {:induction false} CompleteSeq(ids: seq<int>, text: string, rules: map<int, Rule>, fuel: nat, w: string, n: nat)
    requires NonEmptyRules(rules) && |ids| > 1 && text != []
    requires Matches(Seq(ids), text, rules, fuel).Ok? && Gen(Seq(ids), w, rules, n) && IsPrefix(w, text)
    ensures |w| in Matches(Seq(ids), text, rules, fuel).value
    decreases n, 1
  {
    var id := ids[0];
    SeqUnfold(ids, text, rules, fuel);
    var k :| 0 <= k <= |w| && Gen(rules[id], w[..k], rules, n - 1) && Gen(Seq(ids[1..]), w[k..], rules, n - 1);
    assert IsPrefix(w[..k], text) by {
      assert text[..k] == w[..k];
    }
    MatchesComplete(rules[id], text, rules, fuel - 1, w[..k], n - 1);
    var firsts := Matches(rules[id], text, rules, fuel - 1).value;
    assert IsPrefix(w[k..], text[k..]) by {
      assert text[k..][..|w| - k] == w[k..];
    }
    SeqRestComplete(firsts, ids[1..], text, rules, fuel - 1, k, w[k..], n - 1);
  }

  /** A longer Seq that finishes is its first id's matches, each extended
      by the rest. */
  lemma SeqUnfold(ids: seq<int>, text: string, rules: map<int, Rule>, fuel: nat)
    requires |ids| > 1 && text != [] && Matches(Seq(ids), text, rules, fuel).Ok?
    ensures fuel > 0 && ids[0] in rules && Matches(rules[ids[0]], text, rules, fuel - 1).Ok?
    ensures Matches(Seq(ids), text, rules, fuel) ==
      SeqRest(Matches(rules[ids[0]], text, rules, fuel - 1).value, ids[1..], text, rules, fuel - 1)
  {
  }

  lemma {:induction false} SeqRestComplete(lens: seq<nat>, rest: seq<int>, text: string, rules: map<int, Rule>, fuel: nat,
                                           k: nat, v: string, n: nat)
    requires NonEmptyRules(rules)
    requires SeqRest(lens, rest, text, rules, fuel).Ok? && k in lens && k <= |text|
    requires Gen(Seq(rest), v, rules, n) && IsPrefix(v, text[k..])
    ensures k + |v| in SeqRest(lens, rest, text, rules, fuel).value
    decreases n, 3, |lens|, 1
  {
    if lens[0] == k {
      SeqRestHere(lens, rest, text, rules, fuel, k, v, n);
    } else {
      SeqRestLater(lens, rest, text, rules, fuel, k, v, n);
    }
  }

  lemma {:induction false} SeqRestHere(lens: seq<nat>, rest: seq<int>, text: string, rules: map<int, Rule>, fuel: nat,
                                       k: nat, v: string, n: nat)
    requires NonEmptyRules(rules)
    requires SeqRest(lens, rest, text, rules, fuel).Ok? && lens != [] && lens[0] == k && k <= |text|
    requires Gen(Seq(rest), v, rules, n) && IsPrefix(v, text[k..])
    ensures k + |v| in SeqRest(lens, rest, text, rules, fuel).value
    decreases n, 3, |lens|, 0
  {
    SeqRestUnfold(lens, rest, text, rules, fuel);
    var ms := Matches(Seq(rest), Drop(text, k), rules, fuel).value;
    var more := SeqRest(lens[1..], rest, text, rules, fuel).value;
    assert Drop(text, k) == text[k..];
    MatchesComplete(Seq(rest), text[k..], rules, fuel, v, n);
    var i :| 0 <= i < |ms| && ms[i] == |v|;
    assert (Shift(k, ms) + more)[i] == k + |v|;
  }

  lemma {:induction false} SeqRestLater(lens: seq<nat>, rest: seq<int>, text: string, rules: map<int, Rule>, fuel: nat,
                                        k: nat, v: string, n: nat)
    requires NonEmptyRules(rules)
    requires SeqRest(lens, rest, text, rules, fuel).Ok? && k in lens && lens[0] != k && k <= |text|
    requires Gen(Seq(rest), v, rules, n) && IsPrefix(v, text[k..])
    ensures k + |v| in SeqRest(lens, rest, text, rules, fuel).value
    decreases n, 3, |lens|, 0
  {
    SeqRestUnfold(lens, rest, text, rules, fuel);
    var ms := Matches(Seq(rest), Drop(text, lens[0]), rules, fuel).value;
    var more := SeqRest(lens[1..], rest, text, rules, fuel).value;
    assert k in lens[1..];
    SeqRestComplete(lens[1..], rest, text, rules, fuel, k, v, n);
    var j :| 0 <= j < |more| && more[j] == k + |v|;
    assert (Shift(lens[0], ms) + more)[|ms| + j] == k + |v|;
  }

  lemma SeqRestUnfold(lens: seq<nat>, rest: seq<int>, text: string, rules: map<int, Rule>, fuel: nat)
    requires lens != [] && SeqRest(lens, rest, text, rules, fuel).Ok?
    ensures Matches(Seq(rest), Drop(text, lens[0]), rules, fuel).Ok?
    ensures SeqRest(lens[1..], rest, text, rules, fuel).Ok?
    ensures SeqRest(lens, rest, text, rules, fuel).value ==
      Shift(lens[0], Matches(Seq(rest), Drop(text, lens[0]), rules, fuel).value) + SeqRest(lens[1..], rest, text, rules, fuel).value
  {
  }

  lemma {:induction false} OrAllComplete(cs: seq<Rule>, text: string, rules: map<int, Rule>, fuel: nat,
                                         i: nat, w: string, n: nat)
    requires NonEmptyRules(rules) && forall j :: 0 <= j < |cs| ==> StrsNonEmpty(cs[j])
    requires OrAll(cs, text, rules, fuel).Ok? && i < |cs| && Gen(cs[i], w, rules, n) && IsPrefix(w, text)
    ensures |w| in OrAll(cs, text, rules, fuel).value
    decreases n, 3, |cs|
  {
    if i == 0 {
      MatchesComplete(cs[0], text, rules, fuel, w, n);
    } else {
      assert cs[1..][i - 1] == cs[i];
      OrAllComplete(cs[1..], text, rules, fuel, i - 1, w, n);
    }
  }

  /** Once the search finishes, more fuel gives the same answer. */
  lemma {:induction false} FuelMonotone(r: Rule, text: string, rules: map<int, Rule>, fuel: nat, more: nat)
    requires Matches(r, text, rules, fuel).Ok? && fuel <= more
    ensures Matches(r, text, rules, more) == Matches(r, text, rules, fuel)
    decreases fuel, 0
  {
    match r
    case Str(_) =>
    case Seq(ids) =>
      if text != [] && ids != [] {
        FuelMonotone(rules[ids[0]], text, rules, fuel - 1, more - 1);
        if |ids| > 1 {
          var firsts := Matches(rules[ids[0]], text, rules, fuel - 1).value;
          SeqRestMonotone(firsts, ids[1..], text, rules, fuel - 1, more - 1);
        }
      }
    case Or(cs) =>
      OrAllMonotone(cs, text, rules, fuel - 1, more - 1);
  }

  lemma {:induction false} SeqRestMonotone(lens: seq<nat>, rest: seq<int>, text: string, rules: map<int, Rule>, fuel: nat, more: nat)
    requires SeqRest(lens, rest, text, rules, fuel).Ok? && fuel <= more
    ensures SeqRest(lens, rest, text, rules, more) == SeqRest(lens, rest, text, rules, fuel)
    decreases fuel, 1, |lens|
  {
    if lens != [] {
      FuelMonotone(Seq(rest), Drop(text, lens[0]), rules, fuel, more);
      SeqRestMonotone(lens[1..], rest, text, rules, fuel, more);
    }
  }

  lemma {:induction false} OrAllMonotone(cs: seq<Rule>, text: string, rules: map<int, Rule>, fuel: nat, more: nat)
    requires OrAll(cs, text, rules, fuel).Ok? && fuel <= more
    ensures OrAll(cs, text, rules, more) == OrAll(cs, text, rules, fuel)
    decreases fuel, 1, |cs|
  {
    if cs != [] {
      FuelMonotone(cs[0], text, rules, fuel, more);
      OrAllMonotone(cs[1..], text, rules, fuel, more);
    }
  }

  // ---------------------------------------------------------------------
  // Reading the rules and counting

  /** The rule lines before the blank line, as `linePattern` splits them:
      the id and the text after the colon. */
  type Def = (int, string)

  /** The replacements of part 2. */
  function Replacement(id: int): Option<string>
  {
    if id == 8 then Some("42 | 42 8") else if id == 11 then Some("42 31 | 42 11 31") else None
  }

  function DefText(d: Def, replace: bool): string
  {
    if replace && Replacement(d.0).Some? then Replacement(d.0).value else d.1
  }

  /** The rule map after the given lines: a later line for an id wins. */
  function BuildRules(defs: seq<Def>, replace: bool): Result<map<int, Rule>>
  {
    if defs == [] then Ok(map[])
    else
      var d := defs[|defs| - 1];
      match BuildRules(defs[..|defs| - 1], replace)
      case Err(m) => Err(m)
      case Ok(rules) =>
        match ParseRule(DefText(d, replace))
        case Err(m) => Err(m)
        case Ok(rule) => Ok(rules[d.0 := rule])
  }

  /** The loop that fills the mutable rule map. */
  method ReadRules(defs: seq<Def>, replace: bool) returns (r: Result<map<int, Rule>>)
    ensures r == BuildRules(defs, replace)
  {
    var rules: map<int, Rule> := map[];
    var k := 0;
    while k < |defs|
      invariant 0 <= k <= |defs|
      invariant BuildRules(defs[..k], replace) == Ok(rules)
    {
      var text := DefText(defs[k], replace);
      var rule := ParseRule(text);
      BuildNext(defs, replace, k, rules);
      if rule.Err? {
        BuildStuck(defs, replace, k + 1);
        return Err(rule.msg);
      }
      rules := rules[defs[k].0 := rule.value];
      k := k + 1;
    }
    assert defs[..k] == defs;
    r := Ok(rules);
  }

  /** One more line: its rule is parsed and stored, or its error stops the
      build. */
  lemma BuildNext(defs: seq<Def>, replace: bool, k: nat, rules: map<int, Rule>)
    requires k < |defs| && BuildRules(defs[..k], replace) == Ok(rules)
    ensures BuildRules(defs[..k + 1], replace) ==
      match ParseRule(DefText(defs[k], replace))
      case Err(m) => Err(m)
      case Ok(rule) => Ok(rules[defs[k].0 := rule])
  {
    assert defs[..k + 1][..k] == defs[..k];
  }

  lemma {:induction false} BuildStuck(defs: seq<Def>, replace: bool, k: nat)
    requires k <= |defs| && BuildRules(defs[..k], replace).Err?
    ensures BuildRules(defs, replace) == BuildRules(defs[..k], replace)
    decreases |defs| - k
  {
    if k < |defs| {
      assert defs[..k + 1][..k] == defs[..k];
      BuildStuck(defs, replace, k + 1);
    } else {
      assert defs[..k] == defs;
    }
  }

  /** The map holds exactly the ids of the lines. */
  lemma {:induction false} BuildRulesKeys(defs: seq<Def>, replace: bool)
    requires BuildRules(defs, replace).Ok?
    ensures forall id :: id in BuildRules(defs, replace).value <==> exists i :: 0 <= i < |defs| && defs[i].0 == id
    decreases |defs|
  {
    if defs != [] {
      var n := |defs| - 1;
      var init := defs[..n];
      BuildRulesKeys(init, replace);
      forall id ensures id in BuildRules(defs, replace).value <==> exists i :: 0 <= i < |defs| && defs[i].0 == id {
        if id in BuildRules(init, replace).value && id != defs[n].0 {
          var i :| 0 <= i < |init| && init[i].0 == id;
          assert defs[i].0 == id;
        }
        if exists i :: 0 <= i < |defs| && defs[i].0 == id {
          var i :| 0 <= i < |defs| && defs[i].0 == id;
          if i < n { assert init[i].0 == id; }
        }
      }
    }
  }

  predicate LastFor(defs: seq<Def>, i: int)
    requires 0 <= i < |defs|
  {
    forall j :: i < j < |defs| ==> defs[j].0 != defs[i].0
  }

  /** Each id holds the rule of its last line: a later line wins. */
  lemma {:induction false} BuildRulesLast(defs: seq<Def>, replace: bool, i: nat)
    requires BuildRules(defs, replace).Ok? && i < |defs| && LastFor(defs, i)
    ensures defs[i].0 in BuildRules(defs, replace).value
    ensures ParseRule(DefText(defs[i], replace)) == Ok(BuildRules(defs, replace).value[defs[i].0])
    decreases |defs|
  {
    var n := |defs| - 1;
    var init := defs[..n];
    if i < n {
      assert init[i] == defs[i];
      assert LastFor(init, i) by {
        assert forall j :: i < j < |init| ==> init[j] == defs[j];
      }
      BuildRulesLast(init, replace, i);
    }
  }

  function FullLength(ls: seq<nat>, n: nat): nat
  {
    CountWhere(ls, (l: nat) => l == n)
  }

  /** The count over the non-blank messages of rule 0's full-length
      matches; rule 0 is looked up only for a non-blank message. */
  function CountMatches(rules: map<int, Rule>, messages: seq<string>, fuel: nat): Result<nat>
  {
    if messages == [] then Ok(0)
    else
      var line := messages[|messages| - 1];
      match CountMatches(rules, messages[..|messages| - 1], fuel)
      case Err(m) => Err(m)
      case Ok(c) =>
        if IsBlank(line) then Ok(c)
        else if 0 !in rules then Err("NoSuchElementException")
        else
          match Matches(rules[0], line, rules, fuel)
          case Err(m) => Err(m)
          case Ok(ls) => Ok(c + FullLength(ls, |line|))
  }

  /** A message is counted at all exactly when rule 0 derives all of it. */
  lemma FullMatchMeaning(rules: map<int, Rule>, line: string, fuel: nat)
    requires 0 in rules && NonEmptyRules(rules) && Matches(rules[0], line, rules, fuel).Ok?
    ensures FullLength(Matches(rules[0], line, rules, fuel).value, |line|) > 0 <==> Derives(rules[0], line, rules)
  {
    var ls := Matches(rules[0], line, rules, fuel).value;
    CountWhereIsIndices(ls, (l: nat) => l == |line|);
    MatchesSound(rules[0], line, rules, fuel);
    if FullLength(ls, |line|) > 0 {
      var i :| i in IndicesWhere(ls, (l: nat) => l == |line|);
      assert ls[i] in ls && line[..|line|] == line;
    }
    if Derives(rules[0], line, rules) {
      var n :| Gen(rules[0], line, rules, n);
      assert line[..|line|] == line;
      MatchesComplete(rules[0], line, rules, fuel, line, n);
      var i :| 0 <= i < |ls| && ls[i] == |line|;
      assert i in IndicesWhere(ls, (l: nat) => l == |line|);
    }
  }

  /** `solve` of both parts, from the rule lines and the messages after
      the blank line; part 2 parses the replacement texts for 8 and 11. */
  method Solve(defs: seq<Def>, messages: seq<string>, replace: bool, fuel: nat) returns (r: Result<nat>)
    ensures BuildRules(defs, replace).Err? ==> r.Err?
    ensures BuildRules(defs, replace).Ok? ==> r == CountMatches(BuildRules(defs, replace).value, messages, fuel)
  {
    var rules := ReadRules(defs, replace);
    if rules.Err? {
      return Err(rules.msg);
    }
    r := CountMatches(rules.value, messages, fuel);
  }

  lemma SmallIds()
    ensures IntString(8) == "8" && IntString(42) == "42" && IntString(31) == "31" && IntString(11) == "11"
  {
    assert NatString(4) == "4" && NatString(3) == "3" && NatString(1) == "1";
  }

  lemma Text8()
    ensures JoinBars(AltTexts([Seq([42]), Seq([42, 8])])) == "42 | 42 8"
  {
    SmallIds();
    assert IdTexts([42]) == ["42"];
    assert IdTexts([42, 8]) == ["42", "8"];
    assert SeqText([42, 8]) == "42" + " " + "8";
    assert SeqText([42]) == "42";
    assert AltText(Seq([42])) == "42" && AltText(Seq([42, 8])) == "42 8";
    assert AltTexts([Seq([42]), Seq([42, 8])]) == ["42", "42 8"];
  }

  lemma Text11()
    ensures JoinBars(AltTexts([Seq([42, 31]), Seq([42, 11, 31])])) == "42 31 | 42 11 31"
  {
    Text4231();
    Text421131();
    var ts := AltTexts([Seq([42, 31]), Seq([42, 11, 31])]);
    assert ts == ["42 31", "42 11 31"];
    assert ts[1..] == ["42 11 31"];
  }

  lemma Text4231()
    ensures AltText(Seq([42, 31])) == "42 31"
  {
    SmallIds();
    assert IdTexts([42, 31]) == ["42", "31"];
    assert SeqText([42, 31]) == "42" + " " + "31";
  }

  lemma Text421131()
    ensures AltText(Seq([42, 11, 31])) == "42 11 31"
  {
    SmallIds();
    assert IdTexts([42, 11, 31]) == ["42", "11", "31"];
    assert JoinSpaces(["11", "31"]) == "11" + " " + "31";
    assert SeqText([42, 11, 31]) == "42" + " " + "11 31";
  }

  /** The replacement rule 8 of part 2 parses to 42 | 42 8. */
  lemma Replacement8()
    ensures ParseRule(Replacement(8).value) == Ok(Or([Seq([42]), Seq([42, 8])]))
  {
    OrRoundTrip([Seq([42]), Seq([42, 8])]);
    Text8();
  }

  /** The replacement rule 11 of part 2 parses to 42 31 | 42 11 31. */
  lemma Replacement11()
    ensures ParseRule(Replacement(11).value) == Ok(Or([Seq([42, 31]), Seq([42, 11, 31])]))
  {
    OrRoundTrip([Seq([42, 31]), Seq([42, 11, 31])]);
    Text11();
  }
}
