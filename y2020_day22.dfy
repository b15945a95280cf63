/** 2020 day 22: two decks of cards, plain Combat (Part 1) and Recursive
    Combat (Part 2), with decks as mutable double-ended queues. */
module Y2020Day22 {
  import opened Common

  /** A parsed deck: the player's name and the cards from top to bottom. */
  datatype Hand = Hand(name: string, cards: seq<int>)

  /** The two decks' contents between rounds. */
  datatype Table = Table(p1: seq<int>, p2: seq<int>)

  /** How a Recursive Combat game ends: whether the first player's deck is
      the one returned, and the decks at that point. */
  datatype Outcome = Outcome(p1Wins: bool, final: Table)

  function Cards(t: Table): multiset<int> { multiset(t.p1) + multiset(t.p2) }

  function Total(t: Table): nat { |t.p1| + |t.p2| }

  // -------------------------------------------------------------- scoring

  function Reversed(s: seq<int>): (r: seq<int>)
    ensures |r| == |s| && forall i :: 0 <= i < |s| ==> r[i] == s[|s| - 1 - i]
  {
    if s == [] then [] else Reversed(s[1..]) + [s[0]]
  }

  /** The sum of (i + 1) times r[i]. */
  function Weighted(r: seq<int>): int
  {
    if r == [] then 0 else Weighted(r[..|r| - 1]) + |r| * r[|r| - 1]
  }

  /** `cards.reversed().withIndex().map { (index + 1) * value }.sum()`. */
  function ScoreOf(cards: seq<int>): int
  {
    Weighted(Reversed(cards))
  }

  /** The score read from the top: in a deck of n cards the top one counts
      n times, the next n - 1 times, and so on. */
  function TopScore(cards: seq<int>): int
  {
    if cards == [] then 0 else |cards| * cards[0] + TopScore(cards[1..])
  }

  lemma {:induction false} ScoreFromTop(cards: seq<int>)
    ensures ScoreOf(cards) == TopScore(cards)
  {
    if cards != [] {
      ScoreFromTop(cards[1..]);
      var r := Reversed(cards);
      assert r[..|r| - 1] == Reversed(cards[1..]);
    }
  }

  lemma {:induction false} SumReversed(s: seq<int>)
    ensures Sum(Reversed(s)) == Sum(s)
  {
    if s != [] {
      SumReversed(s[1..]);
      SumAppend([s[0]], s[1..]);
      assert [s[0]] + s[1..] == s;
      var r := Reversed(s);
      assert r[..|r| - 1] == Reversed(s[1..]);
    }
  }

  lemma {:induction false} WeightedFront(x: int, r: seq<int>)
    ensures Weighted([x] + r) == Weighted(r) + Sum(r) + x
  {
    if r != [] {
      var n := |r| - 1;
      assert ([x] + r)[..n + 1] == [x] + r[..n];
      WeightedFront(x, r[..n]);
    }
  }

  /** Putting a card at the bottom raises every other card's weight by
      one and gives the new card weight one. */
  lemma ScoreAddBottom(cards: seq<int>, x: int)
    ensures ScoreOf(cards + [x]) == ScoreOf(cards) + Sum(cards) + x
  {
    var c := cards + [x];
    assert Reversed(c) == [x] + Reversed(cards) by {
      var r := Reversed(c);
      assert forall i :: 0 <= i < |r| ==> r[i] == ([x] + Reversed(cards))[i];
    }
    WeightedFront(x, Reversed(cards));
    SumReversed(cards);
  }

  // -------------------------------------------------------------- the deck

  /** `Deck(name, cards: ArrayDeque<Int>)`. */
  class Deck {
    const name: string
    var cards: seq<int>

    constructor(name: string, cards: seq<int>)
      ensures this.name == name && this.cards == cards
    {
      this.name := name;
      this.cards := cards;
    }

    /** The deck's score, each card weighted by its place counted from the
        bottom. */
    function Score(): (s: int)
      reads this
      ensures s == TopScore(cards)
    {
      ScoreFromTop(cards);
      ScoreOf(cards)
    }

    function Size(): nat
      reads this
    {
      |cards|
    }

    predicate IsNotEmpty()
      reads this
    {
      cards != []
    }

    /** `removeFirst()`, which throws on an empty deque. */
    method Draw() returns (card: Result<int>)
      modifies this
      ensures old(cards) == [] ==> card.Err? && cards == old(cards)
      ensures old(cards) != [] ==> card == Ok(old(cards)[0]) && cards == old(cards)[1..]
    {
      if cards == [] {
        return Err("NoSuchElementException");
      }
      card := Ok(cards[0]);
      cards := cards[1..];
    }

    method AddWinnings(card1: int, card2: int)
      modifies this
      ensures cards == old(cards) + [card1, card2]
    {
      cards := cards + [card1];
      cards := cards + [card2];
    }

    /** `copy(cards = ArrayDeque(cards.take(count)))`: a new deck of the same
        name holding the first count cards (all of them if there are fewer);
        a negative count throws. */
    method Take(count: int) returns (r: Result<Deck>)
      ensures count < 0 ==> r.Err?
      ensures count >= 0 ==>
        r.Ok? && fresh(r.value) && r.value.name == name &&
        r.value.cards == cards[..if count <= |cards| then count else |cards|]
    {
      if count < 0 {
        return Err("IllegalArgumentException");
      }
      var n := if count <= |cards| then count else |cards|;
      var d := new Deck(name, cards[..n]);
      return Ok(d);
    }
  }

  // -------------------------------------------------------------- parsing

  /** The `parseDecks` loop state: the finished decks, the current name and
      the current cards. */
  datatype Reader = Reader(done: seq<Hand>, name: string, cards: seq<int>)

  function RemoveSuffix(s: string, suffix: string): string
  {
    if |suffix| <= |s| && s[|s| - |suffix|..] == suffix then s[..|s| - |suffix|] else s
  }

  /** One line: a "Player" header closes the current deck (unless no name
      was seen yet) and opens a new one; any other non-blank line is a
      card. */
  function ReadLine(st: Reader, line: string): Result<Reader>
  {
    if "Player" <= line then
      Ok(Reader(if st.name != "" then st.done + [Hand(st.name, st.cards)] else st.done,
                RemoveSuffix(line, ":"), []))
    else if !IsBlank(line) then
      match ParseInt(line)
      case None => Err("NumberFormatException")
      case Some(v) => Ok(st.(cards := st.cards + [v]))
    else Ok(st)
  }

  function ReadFrom(st: Reader, lines: seq<string>): Result<Reader>
    decreases |lines|
  {
    if lines == [] then Ok(st)
    else
      match ReadLine(st, lines[0])
      case Err(e) => Err(e)
      case Ok(next) => ReadFrom(next, lines[1..])
  }

  const Start := Reader([], "", [])

  /** The list of decks `parseDecks` returns, which must hold exactly two. */
  function Decks(lines: seq<string>): (r: Result<seq<Hand>>)
    ensures r.Ok? ==> |r.value| == 2
  {
    match ReadFrom(Start, lines)
    case Err(e) => Err(e)
    case Ok(st) =>
      var hs := st.done + [Hand(st.name, st.cards)];
      if |hs| == 2 then Ok(hs) else Err("IllegalStateException")
  }

  method ParseDecks(lines: seq<string>) returns (r: Result<(Deck, Deck)>)
    ensures r.Ok? <==> Decks(lines).Ok?
    ensures r.Err? ==> r.msg == Decks(lines).msg
    ensures r.Ok? ==> var hs := Decks(lines).value;
      fresh(r.value.0) && fresh(r.value.1) && r.value.0 != r.value.1 &&
      r.value.0.name == hs[0].name && r.value.0.cards == hs[0].cards &&
      r.value.1.name == hs[1].name && r.value.1.cards == hs[1].cards
  {
    var result: seq<Hand> := [];
    var name := "";
    var cards: seq<int> := [];
    var i := 0;
    while i < |lines|
      invariant 0 <= i <= |lines|
      invariant ReadFrom(Reader(result, name, cards), lines[i..]) == ReadFrom(Start, lines)
    {
      var line := lines[i];
      assert lines[i..][0] == line && lines[i..][1..] == lines[i + 1..];
      if "Player" <= line {
        if name != "" {
          result := result + [Hand(name, cards)];
        }
        name := RemoveSuffix(line, ":");
        cards := [];
      } else if !IsBlank(line) {
        var v := ParseInt(line);
        if v.None? {
          return Err("NumberFormatException");
        }
        cards := cards + [v.value];
      }
      i := i + 1;
    }
    result := result + [Hand(name, cards)];
    if |result| != 2 {
      return Err("IllegalStateException");
    }
    var d1 := new Deck(result[0].name, result[0].cards);
    var d2 := new Deck(result[1].name, result[1].cards);
    return Ok((d1, d2));
  }

  /** A deck written out as the puzzle input writes it: the header, then one
      card per line. */
  function CardLines(cards: seq<int>): (ls: seq<string>)
    ensures |ls| == |cards| && forall i :: 0 <= i < |cards| ==> ls[i] == IntString(cards[i])
  {
    if cards == [] then [] else [IntString(cards[0])] + CardLines(cards[1..])
  }

  function Layout(h1: Hand, h2: Hand): seq<string>
  {
    [h1.name + ":"] + CardLines(h1.cards) + [""] + [h2.name + ":"] + CardLines(h2.cards)
  }

  /** Reading on from an intermediate state, failing if it failed. */
  function Continue(r: Result<Reader>, lines: seq<string>): Result<Reader>
  {
    match r
    case Err(e) => Err(e)
    case Ok(st) => ReadFrom(st, lines)
  }

  lemma {:induction false} ReadFromAppend(st: Reader, a: seq<string>, b: seq<string>)
    ensures ReadFrom(st, a + b) == Continue(ReadFrom(st, a), b)
    decreases |a|
  {
    if a == [] {
      assert a + b == b;
    } else {
      assert (a + b)[0] == a[0] && (a + b)[1..] == a[1..] + b;
      var n := ReadLine(st, a[0]);
      if n.Ok? {
        ReadFromAppend(n.value, a[1..], b);
      }
    }
  }

  lemma Chain(st: Reader, a: seq<string>, mid: Reader, b: seq<string>, end: Reader)
    requires ReadFrom(st, a) == Ok(mid) && ReadFrom(mid, b) == Ok(end)
    ensures ReadFrom(st, a + b) == Ok(end)
  {
    ReadFromAppend(st, a, b);
  }

  lemma CardLine(v: int)
    ensures !("Player" <= IntString(v)) && !IsBlank(IntString(v)) && ParseInt(IntString(v)) == Some(v)
  {
    ParseIntString(v);
    var s := IntString(v);
    if v < 0 {
      assert s[0] == '-';
    } else {
      NatStringValue(v);
      assert IsDigit(s[0]);
    }
  }

  /** Lines that each read as a card. */
  predicate CardsRead(ls: seq<string>, cards: seq<int>)
  {
    |ls| == |cards| &&
    forall i :: 0 <= i < |ls| ==> !("Player" <= ls[i]) && !IsBlank(ls[i]) && ParseInt(ls[i]) == Some(cards[i])
  }

  lemma {:induction false} ReadCardLines(st: Reader, ls: seq<string>, cards: seq<int>)
    requires CardsRead(ls, cards)
    ensures ReadFrom(st, ls) == Ok(st.(cards := st.cards + cards))
    decreases |ls|
  {
    if ls != [] {
      var next := st.(cards := st.cards + [cards[0]]);
      assert ReadLine(st, ls[0]) == Ok(next);
      ReadFirst(st, ls, next);
      assert CardsRead(ls[1..], cards[1..]);
      ReadCardLines(next, ls[1..], cards[1..]);
      assert next.cards + cards[1..] == st.cards + cards;
    } else {
      assert st.cards + cards == st.cards;
    }
  }

  lemma ReadCards(st: Reader, cards: seq<int>)
    ensures ReadFrom(st, CardLines(cards)) == Ok(st.(cards := st.cards + cards))
  {
    var ls := CardLines(cards);
    forall i | 0 <= i < |ls|
      ensures !("Player" <= ls[i]) && !IsBlank(ls[i]) && ParseInt(ls[i]) == Some(cards[i])
    {
      CardLine(cards[i]);
    }
    ReadCardLines(st, ls, cards);
  }

  lemma ReadFirst(st: Reader, lines: seq<string>, next: Reader)
    requires lines != [] && ReadLine(st, lines[0]) == Ok(next)
    ensures ReadFrom(st, lines) == ReadFrom(next, lines[1..])
  {
  }

  lemma ReadOne(st: Reader, line: string)
    ensures ReadFrom(st, [line]) == ReadLine(st, line)
  {
    assert [line][1..] == [];
  }

  lemma ReadHeader(st: Reader, name: string)
    requires "Player" <= name
    ensures ReadFrom(st, [name + ":"]) ==
      Ok(Reader(if st.name != "" then st.done + [Hand(st.name, st.cards)] else st.done, name, []))
  {
    var head := name + ":";
    assert head[|head| - 1..] == ":" && head[..|head| - 1] == name;
    assert "Player" <= head;
    ReadOne(st, head);
  }

  lemma ReadBlank(st: Reader)
    ensures ReadFrom(st, [""]) == Ok(st)
  {
    ReadOne(st, "");
  }

  /** Reading two decks written out with their headers gives back those two
      decks, their cards in input order. */
  lemma ParseLayout(h1: Hand, h2: Hand)
    requires "Player" <= h1.name && "Player" <= h2.name
    ensures Decks(Layout(h1, h2)) == Ok([h1, h2])
  {
    var head1, head2 := h1.name + ":", h2.name + ":";
    var c1, c2 := CardLines(h1.cards), CardLines(h2.cards);
    var s1 := Reader([], h1.name, []);
    var s2 := Reader([], h1.name, h1.cards);
    var s3 := Reader([h1], h2.name, []);
    var s4 := Reader([h1], h2.name, h2.cards);
    ReadHeader(Start, h1.name);
    ReadCards(s1, h1.cards);
    assert s1.cards + h1.cards == h1.cards;
    Chain(Start, [head1], s1, c1, s2);
    ReadBlank(s2);
    Chain(Start, [head1] + c1, s2, [""], s2);
    assert s2.name != "" && s2.done + [Hand(s2.name, s2.cards)] == [h1];
    ReadHeader(s2, h2.name);
    Chain(Start, [head1] + c1 + [""], s2, [head2], s3);
    ReadCards(s3, h2.cards);
    assert s3.cards + h2.cards == h2.cards;
    Chain(Start, [head1] + c1 + [""] + [head2], s3, c2, s4);
    assert Layout(h1, h2) == [head1] + c1 + [""] + [head2] + c2;
    assert s4.done + [Hand(s4.name, s4.cards)] == [h1, h2];
  }

  // -------------------------------------------------------------- part 1

  /** Either way a round ends, the two drawn cards go to the bottom of one
      deck and nothing else moves. */
  lemma Conserve(c1: int, c2: int, r1: seq<int>, r2: seq<int>)
    ensures var t := Table([c1] + r1, [c2] + r2);
      Cards(Table(r1 + [c1, c2], r2)) == Cards(t) && Cards(Table(r1, r2 + [c2, c1])) == Cards(t)
  {
  }

  /** One round of Combat: the higher card's owner puts its own card and
      then the other at the bottom; equal cards fail the `check`. */
  function Round1(t: Table): (r: Result<Table>)
    requires t.p1 != [] && t.p2 != []
    ensures r.Err? <==> t.p1[0] == t.p2[0]
    ensures r.Ok? ==> Total(r.value) == Total(t)
  {
    var c1, c2 := t.p1[0], t.p2[0];
    if c1 == c2 then Err("IllegalStateException")
    else if c1 > c2 then Ok(Table(t.p1[1..] + [c1, c2], t.p2[1..]))
    else Ok(Table(t.p1[1..], t.p2[1..] + [c2, c1]))
  }

  /** A round of Combat only moves cards. */
  lemma Round1Conserves(t: Table)
    requires t.p1 != [] && t.p2 != [] && Round1(t).Ok?
    ensures Cards(Round1(t).value) == Cards(t)
  {
    var c1, c2 := t.p1[0], t.p2[0];
    assert t.p1 == [c1] + t.p1[1..] && t.p2 == [c2] + t.p2[1..];
    Conserve(c1, c2, t.p1[1..], t.p2[1..]);
  }

  /** Rounds until a deck is empty, at most `fuel` of them. */
  function Play1(t: Table, fuel: nat): (r: Result<Table>)
    ensures r.Ok? ==> r.value.p1 == [] || r.value.p2 == []
    decreases fuel
  {
    if t.p1 == [] || t.p2 == [] then Ok(t)
    else if fuel == 0 then Err("round limit")
    else
      match Round1(t)
      case Err(e) => Err(e)
      case Ok(next) => Play1(next, fuel - 1)
  }

  /** A game of Combat ends with the cards it started with. */
  lemma {:induction false} Play1Conserves(t: Table, fuel: nat)
    requires Play1(t, fuel).Ok?
    ensures Cards(Play1(t, fuel).value) == Cards(t)
    decreases fuel
  {
    if t.p1 != [] && t.p2 != [] {
      Round1Conserves(t);
      Play1Conserves(Round1(t).value, fuel - 1);
    }
  }

  /** More rounds allowed change nothing about a game that has ended. */
  lemma {:induction false} Play1Fuel(t: Table, fuel: nat, more: nat)
    requires fuel <= more && Play1(t, fuel).Ok?
    ensures Play1(t, more) == Play1(t, fuel)
    decreases fuel
  {
    if t.p1 == [] || t.p2 == [] {
      assert Play1(t, more) == Ok(t);
      assert Play1(t, fuel) == Ok(t);
    } else {
      assert fuel > 0;
      var n := Round1(t);
      assert n.Ok?;
      assert Play1(t, fuel) == Play1(n.value, fuel - 1);
      assert Play1(t, more) == Play1(n.value, more - 1);
      Play1Fuel(n.value, fuel - 1, more - 1);
    }
  }

  /** `listOf(player1, player2).first(Deck::isNotEmpty)`. */
  function Winner(t: Table): Result<seq<int>>
  {
    if t.p1 != [] then Ok(t.p1) else if t.p2 != [] then Ok(t.p2) else Err("NoSuchElementException")
  }

  function Answer1(lines: seq<string>, fuel: nat): Result<int>
  {
    match Decks(lines)
    case Err(e) => Err(e)
    case Ok(hs) =>
      match Play1(Table(hs[0].cards, hs[1].cards), fuel)
      case Err(e) => Err(e)
      case Ok(t) =>
        match Winner(t)
        case Err(e) => Err(e)
        case Ok(w) => Ok(ScoreOf(w))
  }

  method Part1(lines: seq<string>, fuel: nat) returns (r: Result<int>)
    ensures r == Answer1(lines, fuel)
  {
    var decks := ParseDecks(lines);
    if decks.Err? {
      return Err(decks.msg);
    }
    var player1, player2 := decks.value.0, decks.value.1;
    ghost var t0 := Table(player1.cards, player2.cards);
    var rounds := 0;
    while player1.IsNotEmpty() && player2.IsNotEmpty() && rounds < fuel
      invariant rounds <= fuel
      invariant Play1(Table(player1.cards, player2.cards), fuel - rounds) == Play1(t0, fuel)
      decreases fuel - rounds
    {
      var d1 := player1.Draw();
      var d2 := player2.Draw();
      if d1.Err? || d2.Err? {
        assert false;
      }
      var card1, card2 := d1.value, d2.value;
      if card1 == card2 {
        return Err("IllegalStateException");
      }
      if card1 > card2 {
        player1.AddWinnings(card1, card2);
      } else {
        player2.AddWinnings(card2, card1);
      }
      rounds := rounds + 1;
    }
    if player1.IsNotEmpty() && player2.IsNotEmpty() {
      return Err("round limit");
    }
    if player1.IsNotEmpty() {
      return Ok(player1.Score());
    } else if player2.IsNotEmpty() {
      return Ok(player2.Score());
    }
    return Err("NoSuchElementException");
  }

  // -------------------------------------------------------------- part 2

  /** Every order of the cards of m. */
  ghost function Arrangements(m: multiset<int>): set<seq<int>>
    decreases |m|
  {
    if m == multiset{} then {[]}
    else set x, s | x in m && s in Arrangements(m - multiset{x}) :: [x] + s
  }

  /** Every way to deal the cards of m into two decks: a finite set, which
      is why the repeat rule ends every game. */
  ghost function States(m: multiset<int>): set<Table>
  {
    set s, k | s in Arrangements(m) && 0 <= k <= |s| :: Table(s[..k], s[k..])
  }

  lemma {:induction false} Arranged(s: seq<int>)
    ensures s in Arrangements(multiset(s))
  {
    if s != [] {
      var m := multiset(s);
      var x, rest := s[0], s[1..];
      assert s == [x] + rest;
      assert x in m;
      assert m - multiset{x} == multiset(rest);
      Arranged(rest);
      assert rest in Arrangements(m - multiset{x});
      assert [x] + rest in (set y, t | y in m && t in Arrangements(m - multiset{y}) :: [y] + t);
    } else {
      assert multiset(s) == multiset{};
    }
  }

  lemma InStates(t: Table)
    ensures t in States(Cards(t))
  {
    var s := t.p1 + t.p2;
    Arranged(s);
    assert s[..|t.p1|] == t.p1 && s[|t.p1|..] == t.p2;
  }

  lemma Fewer(all: set<Table>, seen: set<Table>, t: Table)
    requires t in all && t !in seen
    ensures |all - (seen + {t})| < |all - seen|
  {
    assert all - (seen + {t}) == (all - seen) - {t};
  }

  /** `recursiveCombat`: a state seen before in this game makes player 1
      win; otherwise a round is played until a deck is empty. `same` says
      whether the two decks carry the same name. */
  function Game(t: Table, same: bool, seen: set<Table>): (r: Result<Outcome>)
    ensures r.Ok? ==> (r.value.p1Wins <==> r.value.final.p1 != [])
    ensures r.Ok? && r.value.final.p1 != [] && r.value.final.p2 != [] ==> r.value.p1Wins
    decreases Total(t), |States(Cards(t)) - seen| + 3
  {
    if t.p1 == [] || t.p2 == [] then Ok(Outcome(t.p1 != [], t))
    else if t in seen then Ok(Outcome(true, t))
    else
      match Round2(t, same)
      case Err(e) => Err(e)
      case Ok(next) =>
        Round2Conserves(t, same);
        InStates(t);
        Fewer(States(Cards(t)), seen, t);
        Game(next, same, seen + {t})
  }

  /** Who takes the round: the winner of a sub-game on copies of the next
      c1 and c2 cards when both drawn cards are at most the cards left
      (a negative one makes `take` throw), else the higher card. True means
      the first player's deck is the winner. */
  function RoundWinner(t: Table, same: bool): Result<bool>
    requires t.p1 != [] && t.p2 != []
    decreases Total(t), 0
  {
    var c1, c2 := t.p1[0], t.p2[0];
    var r1, r2 := t.p1[1..], t.p2[1..];
    if c1 <= |r1| && c2 <= |r2| then
      if c1 < 0 || c2 < 0 then Err("IllegalArgumentException")
      else
        match Game(Table(r1[..c1], r2[..c2]), same, {})
        case Err(e) => Err(e)
        case Ok(o) => Ok(o.p1Wins)
    else Ok(c1 > c2)
  }

  /** One round of Recursive Combat. The winning deck is matched by name,
      so when the names are equal the first player always takes the cards. */
  function Round2(t: Table, same: bool): (r: Result<Table>)
    requires t.p1 != [] && t.p2 != []
    ensures r.Ok? ==> Total(r.value) == Total(t)
    decreases Total(t), 1
  {
    var c1, c2 := t.p1[0], t.p2[0];
    var r1, r2 := t.p1[1..], t.p2[1..];
    match RoundWinner(t, same)
    case Err(e) => Err(e)
    case Ok(first) =>
      if first || same then Ok(Table(r1 + [c1, c2], r2)) else Ok(Table(r1, r2 + [c2, c1]))
  }

  /** A round of Recursive Combat only moves cards. */
  lemma Round2Conserves(t: Table, same: bool)
    requires t.p1 != [] && t.p2 != [] && Round2(t, same).Ok?
    ensures Cards(Round2(t, same).value) == Cards(t)
    decreases Total(t), 2
  {
    var c1, c2 := t.p1[0], t.p2[0];
    assert t.p1 == [c1] + t.p1[1..] && t.p2 == [c2] + t.p2[1..];
    Conserve(c1, c2, t.p1[1..], t.p2[1..]);
  }

  /** A game of Recursive Combat, repeat or not, ends with the cards it
      started with. */
  lemma {:induction false} GameConserves(t: Table, same: bool, seen: set<Table>)
    requires Game(t, same, seen).Ok?
    ensures Cards(Game(t, same, seen).value.final) == Cards(t)
    decreases Total(t), |States(Cards(t)) - seen|
  {
    if t.p1 != [] && t.p2 != [] && t !in seen {
      Round2Conserves(t, same);
      InStates(t);
      Fewer(States(Cards(t)), seen, t);
      GameConserves(Round2(t, same).value, same, seen + {t});
    }
  }

  /** Without a sub-game and with distinct names and cards, a round of
      Recursive Combat is a round of Combat. */
  lemma RoundsAgree(t: Table)
    requires t.p1 != [] && t.p2 != [] && t.p1[0] != t.p2[0]
    requires t.p1[0] >= |t.p1| || t.p2[0] >= |t.p2|
    ensures Round2(t, false) == Round1(t)
  {
  }

  function Answer2(lines: seq<string>): Result<int>
  {
    match Decks(lines)
    case Err(e) => Err(e)
    case Ok(hs) =>
      match Game(Table(hs[0].cards, hs[1].cards), hs[0].name == hs[1].name, {})
      case Err(e) => Err(e)
      case Ok(o) => Ok(ScoreOf(if o.p1Wins then o.final.p1 else o.final.p2))
  }

  /** `recursiveCombat` on two distinct decks: it plays the game of the
      decks' contents and returns the winning deck object. */
  method RecursiveCombat(player1: Deck, player2: Deck) returns (r: Result<Deck>)
    requires player1 != player2
    modifies player1, player2
    ensures var g := Game(Table(old(player1.cards), old(player2.cards)), player1.name == player2.name, {});
      (r.Err? <==> g.Err?) && (r.Err? ==> r.msg == g.msg) &&
      (r.Ok? ==> r.value == (if g.value.p1Wins then player1 else player2) &&
                 Table(player1.cards, player2.cards) == g.value.final)
    decreases |player1.cards| + |player2.cards|, 1
  {
    ghost var t0 := Table(player1.cards, player2.cards);
    ghost var same := player1.name == player2.name;
    var nextPrevious: set<Table> := {};
    while player1.IsNotEmpty() && player2.IsNotEmpty()
      invariant Cards(Table(player1.cards, player2.cards)) == Cards(t0)
      invariant Total(Table(player1.cards, player2.cards)) == Total(t0)
      invariant Game(Table(player1.cards, player2.cards), same, nextPrevious) == Game(t0, same, {})
      decreases |States(Cards(t0)) - nextPrevious|
    {
      var t := Table(player1.cards, player2.cards);
      if t in nextPrevious {
        return Ok(player1);
      }
      InStates(t);
      Fewer(States(Cards(t0)), nextPrevious, t);
      nextPrevious := nextPrevious + {t};
      var played := PlayRound(player1, player2);
      if played.Err? {
        return Err(played.msg);
      }
      Round2Conserves(t, same);
    }
    if player1.IsNotEmpty() {
      return Ok(player1);
    } else {
      return Ok(player2);
    }
  }

  /** The rest of the loop body once the repeat check has passed: draw,
      find the round's winner, and give it the two cards, its own first. */
  method PlayRound(player1: Deck, player2: Deck) returns (r: Result<()>)
    requires player1 != player2 && player1.cards != [] && player2.cards != []
    modifies player1, player2
    ensures var n := Round2(Table(old(player1.cards), old(player2.cards)), player1.name == player2.name);
      (r.Err? <==> n.Err?) && (r.Err? ==> r.msg == n.msg) &&
      (r.Ok? ==> Table(player1.cards, player2.cards) == n.value)
    decreases |player1.cards| + |player2.cards|, 0
  {
    ghost var t := Table(player1.cards, player2.cards);
    ghost var same := player1.name == player2.name;
    var d1 := player1.Draw();
    var d2 := player2.Draw();
    if d1.Err? || d2.Err? {
      assert false;
    }
    var card1, card2 := d1.value, d2.value;
    var winner: Deck;
    if card1 <= player1.Size() && card2 <= player2.Size() {
      var s1 := player1.Take(card1);
      if s1.Err? {
        return Err("IllegalArgumentException");
      }
      var s2 := player2.Take(card2);
      if s2.Err? {
        return Err("IllegalArgumentException");
      }
      assert s1.value.cards == t.p1[1..][..card1] && s2.value.cards == t.p2[1..][..card2];
      var sub := RecursiveCombat(s1.value, s2.value);
      if sub.Err? {
        return Err(sub.msg);
      }
      winner := sub.value;
    } else {
      winner := if card1 > card2 then player1 else player2;
    }
    assert RoundWinner(t, same).Ok?;
    assert winner.name == player1.name <==> RoundWinner(t, same).value || same;
    if winner.name == player1.name {
      player1.AddWinnings(card1, card2);
    } else {
      assert winner.name == player2.name;
      player2.AddWinnings(card2, card1);
    }
    r := Ok(());
  }

  method Part2(lines: seq<string>) returns (r: Result<int>)
    ensures r == Answer2(lines)
  {
    var decks := ParseDecks(lines);
    if decks.Err? {
      return Err(decks.msg);
    }
    var player1, player2 := decks.value.0, decks.value.1;
    var w := RecursiveCombat(player1, player2);
    if w.Err? {
      return Err(w.msg);
    }
    ScoreFromTop(w.value.cards);
    return Ok(w.value.Score());
  }
}
