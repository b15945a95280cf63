/** 2020 day 4: passport validation. A passport is a paragraph, taken here
    as its list of white-space separated `key:value` tokens. */
module Y2020Day04 {
  import opened Common

  type Record = seq<string>

  /** `substringBefore(':')`: the text before the first ':', or all of it. */
  function KeyOf(tok: string): (k: string)
    ensures k <= tok && ':' !in k
    ensures |k| < |tok| ==> tok[|k|] == ':'
  {
    if tok == [] then []
    else if tok[0] == ':' then []
    else [tok[0]] + KeyOf(tok[1..])
  }

  /** The seven required keys; "cid" is optional. */
  const Required: set<string> := {"byr", "iyr", "eyr", "hgt", "hcl", "ecl", "pid"}

  predicate HasRequiredKeys(r: Record)
  {
    forall k :: k in Required ==> exists i :: 0 <= i < |r| && KeyOf(r[i]) == k
  }

  /** Part1 counts the records whose keys include every required key. */
  function Part1(records: seq<Record>): (n: nat)
    ensures n == |IndicesWhere(records, HasRequiredKeys)| <= |records|
  {
    CountWhereIsIndices(records, HasRequiredKeys);
    CountWhere(records, HasRequiredKeys)
  }

  /** The first piece of `split(':')` is the key. */
  lemma {:induction false} SplitKey(tok: string)
    ensures SplitOn(tok, ':')[0] == KeyOf(tok)
  {
    if tok != [] && tok[0] != ':' {
      SplitKey(tok[1..]);
    }
  }

  /** `\d{4}` matched against the whole value, and the year in lo..hi. */
  predicate YearIn(v: string, lo: int, hi: int)
  {
    |v| == 4 && AllDigits(v) && lo <= DigitsValue(v) <= hi
  }

  /** `(\d+)(cm|in)` matched against the whole value, then the range of the unit. */
  predicate ValidHeight(v: string)
  {
    |v| >= 3 && AllDigits(v[..|v| - 2]) &&
    ((v[|v| - 2..] == "cm" && 150 <= DigitsValue(v[..|v| - 2]) <= 193) ||
     (v[|v| - 2..] == "in" && 59 <= DigitsValue(v[..|v| - 2]) <= 76))
  }

  predicate IsLowerHex(c: char) { '0' <= c <= '9' || 'a' <= c <= 'f' }

  /** `#[0-9a-f]{6}` against the whole value. */
  predicate ValidHairColor(v: string)
  {
    |v| == 7 && v[0] == '#' && forall i :: 1 <= i < 7 ==> IsLowerHex(v[i])
  }

  /** `amb|blu|brn|gry|grn|hzl|oth` against the whole value. */
  predicate ValidEyeColor(v: string)
  {
    v in {"amb", "blu", "brn", "gry", "grn", "hzl", "oth"}
  }

  /** `\d{9}` against the whole value. */
  predicate ValidPassportId(v: string)
  {
    |v| == 9 && AllDigits(v)
  }

  /** The enum `Field`, looked up by `Field.valueOf`. */
  datatype Field = BYR | IYR | EYR | HGT | HCL | ECL | PID

  function FieldOf(name: string): Option<Field>
  {
    match name
    case "BYR" => Some(BYR)
    case "IYR" => Some(IYR)
    case "EYR" => Some(EYR)
    case "HGT" => Some(HGT)
    case "HCL" => Some(HCL)
    case "ECL" => Some(ECL)
    case "PID" => Some(PID)
    case _ => None
  }

  predicate Validate(f: Field, v: string)
  {
    match f
    case BYR => YearIn(v, 1920, 2002)
    case IYR => YearIn(v, 2010, 2020)
    case EYR => YearIn(v, 2020, 2030)
    case HGT => ValidHeight(v)
    case HCL => ValidHairColor(v)
    case ECL => ValidEyeColor(v)
    case PID => ValidPassportId(v)
  }

  /** `uppercase()`, for ASCII letters. */
  function Upper(s: string): (u: string)
    ensures |u| == |s|
  {
    if s == [] then []
    else [if 'a' <= s[0] <= 'z' then (s[0] as int - 32) as char else s[0]] + Upper(s[1..])
  }

  /** The four-digit decimal form of a year. */
  function YearString(y: nat): string
    requires y < 10000
  {
    [('0' as int + y / 1000) as char, ('0' as int + y / 100 % 10) as char,
     ('0' as int + y / 10 % 10) as char, ('0' as int + y % 10) as char]
  }

  /** A year's four-digit form passes a year check exactly when the year is
      in the check's range. */
  lemma YearStringValid(y: nat, lo: int, hi: int)
    requires 1000 <= y < 10000
    ensures YearIn(YearString(y), lo, hi) <==> lo <= y <= hi
  {
    var s := YearString(y);
    var a, b, c, d := y / 1000, y / 100 % 10, y / 10 % 10, y % 10;
    assert DigitValue(s[0]) == a && DigitValue(s[1]) == b && DigitValue(s[2]) == c && DigitValue(s[3]) == d;
    assert s[..3][..2][..1] == [s[0]] && s[..3][..2] == s[..2] && s[..3] == s[..|s| - 1];
    assert DigitsValue([s[0]]) == a by { assert [s[0]][..0] == []; }
    assert DigitsValue(s[..2]) == 10 * a + b;
    assert DigitsValue(s[..3]) == 10 * (10 * a + b) + c;
    assert DigitsValue(s) == 10 * (10 * (10 * a + b) + c) + d;
    DecimalDigits(y);
  }

  lemma DecimalDigits(y: nat)
    ensures y == 1000 * (y / 1000) + 100 * (y / 100 % 10) + 10 * (y / 10 % 10) + y % 10
  {
    var q1, q2, q3 := y / 10, y / 100, y / 1000;
    assert y == 10 * q1 + y % 10;
    assert q1 == 10 * (q1 / 10) + q1 % 10;
    assert q1 / 10 == q2 && q2 / 10 == q3;
    assert q2 == 10 * q3 + q2 % 10;
  }

  /** The value of a `key:value` token: the text after the first ':', up to
      the next ':' if there is one (the second piece of `split(':')`). */
  function ValueOf(tok: string): string
  {
    if |KeyOf(tok)| < |tok| then KeyOf(tok[|KeyOf(tok)| + 1..]) else []
  }

  /** A token with a ':' splits into its key, its value and more. */
  lemma SplitPieces(tok: string)
    requires ':' in tok
    ensures |KeyOf(tok)| < |tok|
    ensures |SplitOn(tok, ':')| >= 2
    ensures SplitOn(tok, ':')[0] == KeyOf(tok) && SplitOn(tok, ':')[1] == ValueOf(tok)
  {
    var k := KeyOf(tok);
    var rest := tok[|k| + 1..];
    assert tok == k + [':'] + rest;
    SplitAppendSep(k, rest, ':');
    SplitKey(rest);
  }

  /** The token is a known non-cid field whose value its validator accepts. */
  predicate Validated(tok: string)
  {
    KeyOf(tok) != "cid" && FieldOf(Upper(KeyOf(tok))).Some? && ':' in tok &&
    Validate(FieldOf(Upper(KeyOf(tok))).value, ValueOf(tok))
  }

  /** One token of a Part2 record: does it count as a validated field?
      "cid" is skipped; an unknown key makes `valueOf` throw, and a token
      without ':' makes `it[1]` throw. */
  function TokenCounts(tok: string): (r: Result<bool>)
    ensures KeyOf(tok) == "cid" ==> r == Ok(false)
    ensures KeyOf(tok) != "cid" && FieldOf(Upper(KeyOf(tok))).None? ==> r.Err?
    ensures KeyOf(tok) != "cid" && FieldOf(Upper(KeyOf(tok))).Some? ==> (r.Ok? <==> ':' in tok)
    ensures r.Ok? ==> (r.value <==> Validated(tok))
  {
    var pieces := SplitOn(tok, ':');
    SplitKey(tok);
    if pieces[0] == "cid" then Ok(false)
    else match FieldOf(Upper(pieces[0]))
      case None => Err("No enum constant")
      case Some(f) =>
        if |pieces| < 2 then
          assert ':' !in tok by {
            if ':' in tok { SplitPieces(tok); }
          }
          Err("Index out of bounds")
        else
          assert ':' in tok by { SplitTwoPieces(tok); }
          SplitPieces(tok);
          Ok(Validate(f, pieces[1]))
  }

  lemma {:induction false} SplitTwoPieces(tok: string)
    requires |SplitOn(tok, ':')| >= 2
    ensures ':' in tok
  {
    if tok != [] && tok[0] != ':' {
      SplitTwoPieces(tok[1..]);
    }
  }

  /** The number of validated non-cid fields of a record, or the first error. */
  function FieldCount(r: Record): (c: Result<nat>)
    ensures c.Ok? <==> forall i :: 0 <= i < |r| ==> TokenCounts(r[i]).Ok?
    ensures c.Ok? ==> c.value == CountWhere(r, Validated) <= |r|
  {
    CountWhereIsIndices(r, Validated);
    if r == [] then Ok(0)
    else
      assert forall i :: 0 <= i < |r| - 1 ==> r[..|r| - 1][i] == r[i];
      match FieldCount(r[..|r| - 1])
      case Err(m) => Err(m)
      case Ok(n) =>
        match TokenCounts(r[|r| - 1])
        case Err(m) => Err(m)
        case Ok(b) => Ok(n + if b then 1 else 0)
  }

  predicate HasSevenFields(r: Record) { FieldCount(r) == Ok(7) }

  /** Part2 counts the records with exactly seven validated non-cid fields;
      any error in any record is the answer's error. */
  function Part2(records: seq<Record>): (r: Result<nat>)
    ensures r.Ok? <==> forall i :: 0 <= i < |records| ==> FieldCount(records[i]).Ok?
    ensures r.Ok? ==> r.value == CountWhere(records, HasSevenFields) <= |records|
  {
    CountWhereIsIndices(records, HasSevenFields);
    if records == [] then Ok(0)
    else
      assert forall i :: 0 <= i < |records| - 1 ==> records[..|records| - 1][i] == records[i];
      match Part2(records[..|records| - 1])
      case Err(m) => Err(m)
      case Ok(n) =>
        match FieldCount(records[|records| - 1])
        case Err(m) => Err(m)
        case Ok(c) => Ok(n + if c == 7 then 1 else 0)
  }
}
