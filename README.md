# Advent of Code solutions, modelled in Dafny

This project models the per-day puzzle logic of a collection of Advent of
Code solutions (2020 in Kotlin; 2021, 2022, 2024 and 2025 in Go and Ruby).
Each day is an independent program that parses a small text format and then
runs a search, a simulation, an evaluation or a validation. Each modelled
source file becomes one Dafny module (`y2020_dec05.dfy` is module
`Y2020Dec05`, and so on); `common.dfy` holds the few value types and sequence
helpers they share (`Option`, `Result`, sums, counting, sorting, splitting).

Conventions used throughout:

- An exception, `panic` or `log.Fatal` of the source is an `Err` result (or a
  `None`), never a precondition.
- Kotlin `Int`/`Long` and Go `int` are unbounded integers; overflow is not
  modelled.
- Code that updates variables in loops is a `method` with loop invariants,
  proved against a specification function; pure pipelines are functions.
- Regular-expression parsing of input lines is mostly not modelled: those days
  start from the parsed records. The one pattern of 2025 day 12 is written out
  as a matcher.

## Model

| member | source | states |
|---|---|---|
| Y2020Dec01.Part1 | 2020/dec1/dec1.kt:16-32 | the emitted products are those of `PairProducts`, which tests the complement against strictly earlier values only |
| Y2020Dec01.PairProductsMeaning | 2020/dec1/dec1.kt:18-30 | a product is emitted iff two entries at distinct positions sum to 2020 and it is their product |
| Y2020Dec01.LoneHalfDoesNotPair | 2020/dec1/dec1.kt:27 | a lone 1010 does not pair with itself, two 1010s do |
| Y2020Dec01.Part2 | 2020/dec1/dec1.kt:35-49 | one result per position whose complement is a stored pair sum (exactly the positions preceded by two entries completing 2020), each the product of three entries at distinct positions summing to 2020 |
| Y2020Dec01.RecordSums | 2020/dec1/dec1.kt:44 | the inner loop adds the key x + i for every seen x, each stored pair being two earlier entries summing to its key |
| Y2020Dec01.ExtendSums | 2020/dec1/dec1.kt:40-46 | after a step, the keys of `sums` are exactly the sums of two entries at distinct earlier positions |
| Y2020Day02.IsValidPart2 | 2020/day2/day2.kt:18 | ok iff both 1-based positions lie in the password, otherwise the index exception |
| Y2020Day02.IsValidPart2Positions | 2020/day2/day2.kt:18 | an ok line is valid iff exactly one entry of the position list [min − 1, max − 1] holds the letter, so min = max is never valid |
| Y2020Day02.IsValidPart1Positions | 2020/day2/day2.kt:16 | Part1's rule holds iff the number of positions holding the letter is in min..max |
| Y2020Day02.CountPart1 | 2020/day2/day2.kt:30-38 | Part1 is the number of positions of valid lines, at most the number of lines |
| Y2020Day02.CountPart2 | 2020/day2/day2.kt:40-48 | Part2 fails iff some line's positions are out of range, otherwise counts the lines valid under Part2's rule |
| Y2020Dec03.Part1 | 2020/dec3/dec3.kt:19-26 | fails (division by zero) iff some row is empty, otherwise at most one count per row |
| Y2020Dec03.Part1IsSlopeThreeOne | 2020/dec3/dec3.kt:22 | Part1's count is the count of the slope right 3, down 1 |
| Y2020Dec03.SlopeCountMonotone | 2020/dec3/dec3.kt:39 | a slope's obstacle count never decreases as rows are added |
| Y2020Dec03.CountRow | 2020/dec3/dec3.kt:35-41 | one row's pass leaves each counter equal to its slope's count over the longer prefix, never smaller than before |
| Y2020Dec03.Part2 | 2020/dec3/dec3.kt:32-45 | fails iff some row is empty, otherwise returns the product of the five slopes' counts, a row counting only when its index is a multiple of `down` |
| Common.CountWhereIsIndices | 2020/day4/day4.kt:23-24 | a filter-and-count equals the number of positions satisfying the filter, at most the length |
| Y2020Day04.KeyOf | 2020/day4/day4.kt:22 | the key is the longest ':'-free prefix, followed by ':' when shorter than the token |
| Y2020Day04.Part1 | 2020/day4/day4.kt:16-27 | counts the records whose keys include all seven required keys (cid optional) |
| Y2020Day04.SplitKey | 2020/day4/day4.kt:63-65 | the first piece of `split(':')` is the key |
| Y2020Day04.YearStringValid | 2020/day4/day4.kt:32-40 | a four-digit year passes a year check iff the year lies in the check's range |
| Y2020Day04.SplitPieces | 2020/day4/day4.kt:63 | a token with a ':' splits into at least two pieces, its key and its value |
| Y2020Day04.TokenCounts | 2020/day4/day4.kt:63-65 | cid is skipped, an unknown key is an error, a known key is ok iff the token has a ':', and an ok token counts iff it is `Validated`: a known non-cid field whose validator accepts its value |
| Y2020Day04.FieldCount | 2020/day4/day4.kt:62-67 | ok iff every token is ok, and then the number of `Validated` tokens, at most the token count |
| Y2020Day04.Part2 | 2020/day4/day4.kt:59-70 | fails iff some record has an error, otherwise counts the records with exactly seven validated non-cid fields |
| Y2020Paragraphs.ToParagraphs | 2020/day4/day4.kt:90-107 | the generator yields the joined groups of `Groups` |
| Y2020Paragraphs.GroupsShape | 2020/day4/day4.kt:90-107 | no group is empty or holds a blank line, and the groups hold exactly the non-blank lines, in order |
| Y2020Paragraphs.GroupsStep | 2020/day4/day4.kt:93-101 | a blank line adds no group, a non-blank line after a non-blank one joins its group, any other non-blank line starts a new one: the groups are the maximal runs |
| Y2020Paragraphs.ParagraphsNonEmpty | 2020/day4/day4.kt:97-105 | no yielded paragraph is empty |
| Y2020Paragraphs.SplitJoin | 2020/day6/day6.kt:31 | splitting a joined paragraph on "\n" gives back its lines |
| Y2020Dec05.NarrowLoop | 2020/dec5/dec5.kt:24-31 | the halving loop computes `Narrow`, stopping at the first bad character |
| Y2020Dec05.NarrowIsBinary | 2020/dec5/dec5.kt:25-28 | halving 2^(n+k) seats by n F/B characters leaves the 2^k seats at lo + 2^k times the binary value |
| Y2020Dec05.SeatId | 2020/dec5/dec5.kt:22-46 | decoding a line is `SeatIdOf`: row part, column part, the single-seat check and 8·row + col |
| Y2020Dec05.SeatIdIsBinary | 2020/dec5/dec5.kt:15-19 | a 7+3 line decodes to 8·(F/B binary) + (L/R binary), in 0..1023 |
| Y2020Dec05.BadRowCharacter | 2020/dec5/dec5.kt:29 | a non-F/B character among the first seven is an error |
| Y2020Dec05.Part1 | 2020/dec5/dec5.kt:50-54 | none iff there are no ids, otherwise the largest id |
| Y2020Dec05.FindGap | 2020/dec5/dec5.kt:60-65 | returns id − 1 for the first sorted id whose offset from the first differs from its index, none when all match |
| Y2020Dec05.GapIsMissingSeat | 2020/dec5/dec5.kt:57-66 | for distinct ascending ids the answer is missing and lies strictly between two consecutive ids |
| Y2020Dec05.Part2 | 2020/dec5/dec5.kt:57-67 | some answer is id − 1 for the first sorted id whose offset from the first sorted id differs from its index; none means the sorted ids are consecutive; for distinct ids an answer is a free seat with a taken seat above it and one below |
| Y2020Dec05.GapInIds | 2020/dec5/dec5.kt:60-63 | for distinct ids the first mismatch in the sorted ids marks a free seat whose neighbours above and below are taken |
| Y2020Dec05.SeatIds | 2020/dec5/dec5.kt:20-47 | ok iff every line decodes, and then the ids line by line; otherwise the error of a bad line |
| Y2020Dec05.Solve1 | 2020/dec5/dec5.kt:51-53 | a bad line is the error; otherwise none iff there are no lines, else the largest decoded id |
| Y2020Dec05.Solve2 | 2020/dec5/dec5.kt:58-66 | a bad line is the error; otherwise Part2 on the decoded ids, a free seat between taken ones when they are distinct |
| Common.SortInts | 2020/dec5/dec5.kt:59 | `sorted()` yields an ascending permutation |
| Y2020Day06.EveryoneCount | 2020/day6/day6.kt:29-33 | a group's Part2 value counts the letters on every line, at most its Part1 value |
| Y2020Day06.Part1Append | 2020/day6/day6.kt:16-22 | Part1's total of distinct letters per group is additive over any split of the groups |
| Y2020Day06.Part2 | 2020/day6/day6.kt:26-37 | the Part2 total is the sum over the groups of the letters on every line (`EveryoneTotal`), and at most the Part1 total |
| Y2020Day06.EveryoneTotalBound | 2020/day6/day6.kt:29-34 | the Part2 total never exceeds the Part1 total, group by group |
| Y2020Day06.SinglePerson | 2020/day6/day6.kt:30-31 | for a one-line group, Part2's letters are its Part1 letters |
| Y2020Dec07.Graph.GetChildren | 2020/dec7/dec7.kt:34-35 | a bag without an entry has no children |
| Y2020Dec07.Graph.GetParents | 2020/dec7/dec7.kt:37-38 | a bag without an entry has no parents |
| Y2020Dec07.Graph.AddEdge | 2020/dec7/dec7.kt:23-32 | fails iff the child is already listed under the parent; otherwise appends the edge to both maps, keeping `contains` and `contained` mirror images; a failure changes nothing |
| Y2020Dec07.AddRule | 2020/dec7/dec7.kt:45-54 | the first n contents, all new under the container and pairwise distinct, are appended to both maps and nothing else changes (`AddOut`, `AddIn`); it fails iff n stops short, at a content whose bag is already listed; on success every content is an edge |
| Y2020Dec07.AddOutHas | 2020/dec7/dec7.kt:49-52 | every appended content is an edge of the new `contains` |
| Y2020Dec07.BuildGraph | 2020/dec7/dec7.kt:59-60 | fails iff the rules are not `Clean`; on success the two maps are `ContainsOf` and `ContainedOf` the rules, mirror images of each other |
| Y2020Dec07.ContainsOfEdges | 2020/dec7/dec7.kt:45-54 | the edges of the built `contains` are exactly the (container, content) pairs the rules list |
| Y2020Dec07.CleanIffDistinct | 2020/dec7/dec7.kt:23-27 | building succeeds iff no (container, bag) pair is listed twice across the rules |
| Y2020Dec07.Solve1 | 2020/dec7/dec7.kt:57-68 | an error iff some (container, bag) pair repeats, otherwise the number of bags other than shiny gold that reach it in the built graph |
| Y2020Dec07.Solve2 | 2020/dec7/dec7.kt:72-79 | an error iff some pair repeats, otherwise the bounded `recursiveSum` of shiny gold, defined iff no cycle is reachable from it |
| Y2020Dec07.Unseen | 2020/dec7/dec7.kt:64 | `filterNot(seen::contains)` keeps exactly the parents not yet seen |
| Y2020Dec07.Visit | 2020/dec7/dec7.kt:62-65 | `recurse` adds the bag, only bags that reach it, and leaves the added bags closed under parents |
| Y2020Dec07.Part1 | 2020/dec7/dec7.kt:57-68 | the answer is the number of bags, other than shiny gold, from which shiny gold is reachable through containment |
| Y2020Dec07.FuelIrrelevant | 2020/dec7/dec7.kt:76-77 | once `recursiveSum` terminates, more recursion depth does not change it |
| Y2020Dec07.RecursiveSumLowerBound | 2020/dec7/dec7.kt:76-77 | a bag's total is at least the sum of its direct counts |
| Y2020Dec07.LeafIsZero | 2020/dec7/dec7.kt:76-77 | a bag with no children contains 0 bags |
| Y2020Dec07.ExampleTotal | 2020/dec7/dec7.kt:72-79 | on the puzzle's first example, shiny gold holds 32 bags |
| Y2020Dec07.DefinedBoundsDescents | 2020/dec7/dec7.kt:76-77 | a defined total at depth f bounds every walk down the containment edges by f bags |
| Y2020Dec07.ShortDescentsDefined | 2020/dec7/dec7.kt:76-77 | when every walk down from the bag has at most f bags, the total at depth f is defined |
| Y2020Dec07.DefinedIffNoCycle | 2020/dec7/dec7.kt:76-77 | at depth one more than the number of bags with contents, the total is defined iff no cycle is reachable from the bag |
| Y2020Dec07.Part2 | 2020/dec7/dec7.kt:72-79 | defined iff no cycle is reachable from shiny gold, and then at least shiny gold's direct counts |
| Y2020Dec08.Parse | 2020/dec8/dec8.kt:26-34 | a parsed instruction's name is the first word and its value the integer second word; an unknown name is an error |
| Y2020Dec08.ParseShow | 2020/dec8/dec8.kt:26-34 | parsing the printed form of an instruction gives it back |
| Y2020Dec08.Part1 | 2020/dec8/dec8.kt:39-57 | the loop computes `Part1From`: the accumulator at the first repeated pc, an error when pc leaves the program |
| Y2020Dec08.Part1DetectsLoop | 2020/dec8/dec8.kt:45-55 | Part1 succeeds exactly when the unmodified program, run as Part2 runs it, loops |
| Y2020Dec08.ExamplePart1 | 2020/dec8/dec8.kt:39-57 | the puzzle's example loops with accumulator 5 |
| Y2020Dec08.Flat | 2020/dec8/dec8.kt:63-80 | an instruction list's flattened program has its `size` |
| Y2020Dec08.GetIsFlat | 2020/dec8/dec8.kt:67-79 | `get(i)` succeeds iff i is in range, and returns the base list's entry or the override at its position |
| Y2020Dec08.AltUsedRuns | 2020/dec8/dec8.kt:107 | once a swap was made, the recursion is a plain run that stops on a loop |
| Y2020Dec08.RecursionSound | 2020/dec8/dec8.kt:82-115 | a found accumulator is the terminating run of the program as given, or with exactly one jmp/nop swapped at a position not yet on the stack |
| Y2020Dec08.Recurse | 2020/dec8/dec8.kt:82-115 | the recursive method computes `Recursion`, and on success the push/pop leaves `seen` as it was |
| Y2020Dec08.Part2 | 2020/dec8/dec8.kt:117-120 | the answer is `Recursion` from pc 0 with nothing seen |
| Y2020Dec08.Part2Sound | 2020/dec8/dec8.kt:117-120 | Part2's answer is the final accumulator of the program, or of the program with one jmp/nop swapped, run to pc = size |
| Y2020Dec08.RecursionComplete | 2020/dec8/dec8.kt:82-115 | when `recurse` on an unmodified program returns null, the run from pc loops, and so does the run of every variant with one jmp/nop swapped at a position not in `seen` |
| Y2020Dec08.Part2Complete | 2020/dec8/dec8.kt:117-120 | "no solution found" means the program and every single jmp/nop swap of it loop; with `Part2Sound`, a non-failing Part2 finds a value iff some such variant runs to the end |
| Y2020Day09.FoundIsCheck | 2020/day9/day9.kt:31 | the test against the set `available` is the test against the window's values |
| Y2020Day09.DropOldest | 2020/day9/day9.kt:34 | removing the oldest value from the set leaves the set of the rest of the window |
| Y2020Day09.AddNewest | 2020/day9/day9.kt:36-40 | adding a value not in the set keeps the window's values distinct and the set its values |
| Y2020Day09.FindWith | 2020/day9/day9.kt:26-43 | the deque-and-set loop computes `FindFrom`: the first value after a full window that fails the rule, a duplicate is an error, exhausting the input is an error |
| Y2020Day09.Find | 2020/day9/day9.kt:26-43 | `find` as written, with `available.contains(it - x)` letting x pair with itself |
| Y2020Day09.FindDistinct | 2020/day9/day9.kt:15-16 | `find` with the rule as the comment states it: two different window values |
| Y2020Day09.FindResult | 2020/day9/day9.kt:26-43 | a reported value follows a full window that fails the rule, and every earlier value with a full window passed |
| Y2020Day09.MatchedMeaning | 2020/day9/day9.kt:31 | the source's test holds iff two window positions, possibly the same, sum to the value |
| Y2020Day09.MatchedDistinctMeaning | 2020/day9/day9.kt:15-16 | for distinct window values the corrected test holds iff two different positions sum to the value |
| Y2020Day09.DoubledValueMatches | 2020/day9/day9.kt:31 | with window 1, 2, 4, 8, 16 the source accepts 32 as 16 + 16 and reports nothing; the corrected rule reports 32 |
| Y2020Day09.ExtendAbove | 2020/day9/day9.kt:54-55 | with positive values, windows that summed above the target still do after one more value |
| Y2020Day09.CloseRuns | 2020/day9/day9.kt:56-59 | with positive values, once the window is at most the target and not a match, no run ends at this value |
| Y2020Day09.DropWhileAbove | 2020/day9/day9.kt:56-58 | dropping from the front leaves a suffix summing to at most the target; running empty happens only for a negative target |
| Y2020Day09.TakeNext | 2020/day9/day9.kt:54-58 | one step of the scan appends the next value and leaves a suffix window ending at it that sums to at most the target, its sum kept; for positive values every longer window ending there sums above the target; running empty happens only for a negative target |
| Y2020Day09.Contiguous | 2020/day9/day9.kt:51-63 | a reported answer is min + max of a run of two or more summing to the target, and for positive values of the run that ends earliest; for positive values "No sequence matched" means no such run exists; a target of 0 or more never throws |
| Y2020Day09.RunUnique | 2020/day9/day9.kt:56-60 | for positive values at most one run ends at each position, so the earliest-ending run is unique |
| Y2020Day09.Part2 | 2020/day9/day9.kt:49-64 | find's error is Part2's error; an answer is min + max of a run summing to the value find reports, the earliest-ending one for positive values; for positive values no answer means no such run |
| Y2020Dec10.Part1 | 2020/dec10/dec10.kt:19-35 | fails iff some gap of the sorted list (the first from 0) lies outside 1..3, otherwise returns the number of 1-gaps times one more than the number of 3-gaps |
| Y2020Dec10.GapsSum | 2020/dec10/dec10.kt:23-31 | the gaps add up to the highest adapter |
| Y2020Dec10.AcceptedChain | 2020/dec10/dec10.kt:24-32 | an accepted list rises strictly from 0, and its highest value lies between its length and three times its length |
| Y2020Dec10.Part2 | 2020/dec10/dec10.kt:40-53 | an empty list throws; otherwise the answer is the path count recorded for the highest adapter, paths[j] summing the recorded counts of j−3..j−1 |
| Y2020Dec10.RecordedStep | 2020/dec10/dec10.kt:43-51 | each step records exactly the adapters seen so far, each with its number of ways up from 0 |
| Y2020Dec10.Part2Counts | 2020/dec10/dec10.kt:42-52 | for positive distinct adapters, Part2 is the number of ways to climb from 0 to the highest adapter in steps of 1 to 3 through adapters |
| Y2020Dec10.ExampleArrangements | 2020/dec10/dec10.kt:38 | the puzzle's first example has 8 arrangements |
| Y2020Dec25.TransformSubject | 2020/dec25/dec25.kt:21-28 | the loop computes `Transform`, running no rounds for a negative loop number |
| Y2020Dec25.TransformIsPow | 2020/dec25/dec25.kt:21-28 | for a non-negative subject, the transform is subject^n mod 20201227, so it lies in 0..20201226 (and is 1 after no rounds) |
| Y2020Dec25.ReverseTransform | 2020/dec25/dec25.kt:30-41 | a returned count c is at least 1 with subject^c ≡ pubKey (mod 20201227), so transforming by c gives a public key in range back; a zero subject throws |
| Y2020Dec25.DivideStep | 2020/dec25/dec25.kt:34-38 | the exact division keeps current · subject^(count−1) ≡ pubKey |
| Y2020Dec25.KeysAgree | 2020/dec25/dec25.kt:53-55 | the two derived encryption keys are equal, both being 7^(loop1·loop2) |
| Y2020Dec25.Part1 | 2020/dec25/dec25.kt:43-57 | anything but two lines fails; an answer is the second key transformed by a discrete log of the first; the final `check` never fails for non-negative keys |
| Y2020Day15.LastBeforeMeaning | 2020/day15/day15.kt:25-26 | `lastSeen` holds the latest earlier turn speaking a number, 0 when none did |
| Y2020Day15.AgeBound | 2020/day15/day15.kt:25 | a derived number is smaller than its turn |
| Y2020Day15.PlayToN | 2020/day15/day15.kt:18-31 | throws iff n is negative or an initial number used as an index lies outside 0..n−1; otherwise returns the number the game derives after turn n−1 |
| Y2020Day15.ResultIsSpoken | 2020/day15/day15.kt:21-30 | past the initial numbers, that is the number spoken on turn n |
| Y2020Day15.Example | 2020/day15/day15.kt:15-16 | for 0,3,6 turns 4 to 8 speak 0, 3, 3, 1, 0 |
| Y2020Dec13.Part1 | 2020/dec13/dec13.kt:20-31 | no lines is `first()`'s exception; there is an answer exactly when there are two lines, a number on the first and a non-empty list of nonzero numbers on the second, and then it is some bus id times its wait `it - (myTime % it)`, no bus waiting less |
| Y2020Dec13.Part1Fixed | 2020/dec13/dec13.kt:20-31 | the same with the wait to the first departure at or after the timestamp |
| Y2020Dec13.BestIndex | 2020/dec13/dec13.kt:27-28 | the chosen bus has the smallest wait of all, and every earlier bus waits strictly longer (the first minimum wins) |
| Y2020Dec13.WaitMeaning | 2020/dec13/dec13.kt:27 | the source's wait reaches a departure but lies in 1..b, and is the full period b when a bus leaves exactly at the timestamp |
| Y2020Dec13.WaitFixedMeaning | 2020/dec13/dec13.kt:27 | the corrected wait lies in 0..b-1, reaches a departure, and no shorter wait does |
| Y2020Dec13.DepartureAtArrival | 2020/dec13/dec13.kt:20-32 | timestamp 10 with buses 5 and 7 answers 28 as written and 0 corrected |
| Y2020Dec13.Bezout | 2020/dec13/dec13.kt:70-92 | a zero second argument is an error exactly; otherwise s·x + t·y is the last nonzero remainder of Euclid's algorithm |
| Y2020Dec13.EuclidLastDivides | 2020/dec13/dec13.kt:77-91 | that last remainder divides both arguments |
| Y2020Dec13.EuclidLastGreatest | 2020/dec13/dec13.kt:77-91 | every common divisor of the arguments divides that remainder, so it is their greatest common divisor up to sign |
| Y2020Dec13.EuclidLastPositive | 2020/dec13/dec13.kt:77-91 | for non-negative x and positive y the remainder is positive |
| Y2020Dec13.PairsMeaning | 2020/dec13/dec13.kt:39-46 | each bus pair carries its position and the number written there, and its remainder plus its position is a multiple of its period |
| Y2020Dec13.ProductSplit | 2020/dec13/dec13.kt:47-50 | the product of the periods is one period times the product of the others, and `product / base` is that complementary product |
| Y2020Dec13.EuclidCombination | 2020/dec13/dec13.kt:70-92 | the last remainder of Euclid's algorithm is an integer combination of the two arguments, as the coefficients the loop tracks show |
| Y2020Dec13.CoprimeEuclid | 2020/dec13/dec13.kt:70-92 | for positive arguments sharing no divisor above 1 that last remainder is 1 |
| Y2020Dec13.UnitCombination | 2020/dec13/dec13.kt:47-52 | two numbers with a combination equal to 1 share no divisor above 1 |
| Y2020Dec13.CoprimeMul | 2020/dec13/dec13.kt:47 | a number coprime to two positive numbers is coprime to their product |
| Y2020Dec13.CoprimeProduct | 2020/dec13/dec13.kt:47 | a positive number coprime to each of some positive numbers is coprime to their product, which is positive |
| Y2020Dec13.CoprimeUnitBezout | 2020/dec13/dec13.kt:47-52 | for positive, pairwise coprime periods, each period and `product / base` have a nonzero quotient and a Bezout combination equal to 1 |
| Y2020Dec13.SumTerms | 2020/dec13/dec13.kt:48-51 | a zero period is an error; when each period's Bezout combination with the product of the others is 1, the sum of the terms is congruent to each bus's remainder modulo its period |
| Y2020Dec13.Assemble | 2020/dec13/dec13.kt:47-52 | no bus or a zero period is an error; for positive, pairwise coprime periods (and more generally whenever each period's Bezout combination with the others' product is 1) the result lies in 0..product-1 and is congruent to every bus's remainder modulo its period |
| Y2020Dec13.Departures | 2020/dec13/dec13.kt:34-52 | a number congruent to every remainder has each bus leave exactly its position minutes after it |
| Y2020Dec13.CoprimeDepartures | 2020/dec13/dec13.kt:38-52 | with positive, pairwise coprime periods, a result congruent to every remainder has each bus leave exactly its position minutes after it |
| Y2020Dec13.Part2Pieces | 2020/dec13/dec13.kt:39-52 | a bad bus entry is an error; for positive, pairwise coprime periods each bus at position i leaves i minutes after the result |
| Y2020Dec13.Part2 | 2020/dec13/dec13.kt:38-52 | the same for the line split at commas |
| Y2020Dec12.Vector | 2020/dec12/dec12.kt:34 | each of E, W, N, S is a unit vector |
| Y2020Dec12.Turn | 2020/dec12/dec12.kt:39-51 | a turn always lands on one of the four headings |
| Y2020Dec12.Run | 2020/dec12/dec12.kt:42-55 | the heading stays one of the four through every run |
| Y2020Dec12.RunDefined | 2020/dec12/dec12.kt:42-55 | the instructions are carried out exactly when every operation is one of N, S, E, W, L, R, F |
| Y2020Dec12.Part1 | 2020/dec12/dec12.kt:38-57 | an unknown operation is an error exactly; otherwise the answer is the Manhattan distance of the state the instructions lead to from the origin heading east |
| Y2020Dec12.MoveMeaning | 2020/dec12/dec12.kt:45-46 | N/S/E/W move by their own vector times the value whatever the heading, F by the heading's vector, and neither turns the ship |
| Y2020Dec12.TurnBack | 2020/dec12/dec12.kt:47-51 | a turn keeps the position, and L v then R v restores the heading for every v |
| Y2020Dec12.FullTurn | 2020/dec12/dec12.kt:47-51 | turning 360 degrees either way changes nothing |
| Y2020Dec12.RunAppend | 2020/dec12/dec12.kt:42-55 | following two instruction lists one after the other is following their concatenation |
| Y2020Dec12.Example | 2020/dec12/dec12.kt:38-57 | the puzzle's example ends at (17, -8) heading south |
| Y2020Day14.StoreMeaning | 2020/day14/day14.kt:29-35 | `value and zeroMask or oneMask`, with the masks read from the mask with X as 1 and as 0, forces the mask's 0 and 1 bits and keeps the value's bits under X |
| Y2020Day14.Run1 | 2020/day14/day14.kt:26-42 | the lines are accepted exactly when each is a write or a mask of 0, 1 and X characters |
| Y2020Day14.Part1 | 2020/day14/day14.kt:21-44 | an unexpected line or a bad mask is an error exactly; otherwise the answer is the sum of the final memory values |
| Y2020Day14.LatestMask | 2020/day14/day14.kt:26-36 | a write stores its value masked by the latest mask line before it |
| Y2020Day14.InitialMask | 2020/day14/day14.kt:22-23 | before any mask a value is stored as its low 36 bits |
| Y2020Day14.StoredBound | 2020/day14/day14.kt:35 | a stored word stands for a number below 2^36 |
| Y2020Day14.XPositions | 2020/day14/day14.kt:74-81 | the floating positions are exactly the bits under X, each once, from bit 35 down |
| Y2020Day14.ExpandMembers | 2020/day14/day14.kt:89-97 | the recursion yields exactly the words that agree with the fixed part off the floating bits |
| Y2020Day14.ExpandDistinct | 2020/day14/day14.kt:89-97 | it yields no word twice |
| Y2020Day14.Expand | 2020/day14/day14.kt:82-98 | it yields 2^n words for n floating bits, one when there are none |
| Y2020Day14.ApplyFloatingMask | 2020/day14/day14.kt:71-100 | the pass over the mask and the recursion yield the addresses of the write |
| Y2020Day14.AddressesMeaning | 2020/day14/day14.kt:71-100 | the addresses are exactly the words with 1 under '1', the index's bit under '0', any bit under X and 0 elsewhere, without repetition, 2^#X of them |
| Y2020Day14.AddressBound | 2020/day14/day14.kt:74-97 | every address is below 2^36 |
| Y2020Day14.WriteAll | 2020/day14/day14.kt:63 | each listed address holds the value afterwards and every other address keeps its value |
| Y2020Day14.Run2Defined | 2020/day14/day14.kt:54-66 | the second part gives up exactly when some mask starts with nine X's |
| Y2020Day14.Part2 | 2020/day14/day14.kt:50-69 | the answer is "(skipped)" exactly when a mask starts with nine X's, and otherwise the sum of the final memory values |
| Y2020Day14.WriteMeaning | 2020/day14/day14.kt:61-64 | after a write every address fitting the current mask holds the value and every other address keeps its value |
| Y2020Dec16.SplitStrAppend | 2020/dec16/dec16.kt:22 | splitting `a + " or " + b`, where a has no space, gives a followed by the pieces of b |
| Y2020Dec16.SplitStrNoSep | 2020/dec16/dec16.kt:22 | a string without the separator's first character splits into itself alone |
| Y2020Dec16.Trim | 2020/dec16/dec16.kt:44 | the trimmed text is a slice of the input with only white space cut from either end, and is empty or starts and ends with a non-space character |
| Y2020Dec16.ParseRangesText | 2020/dec16/dec16.kt:19-29 | parsing the `lo-hi or …` text of a non-empty list of non-negative ranges gives that list back |
| Y2020Dec16.Invalid | 2020/dec16/dec16.kt:48 | a value is kept exactly when it is in the row and in no field's ranges |
| Y2020Dec16.Part1 | 2020/dec16/dec16.kt:34-53 | it fails exactly when the fold of the lines fails (a bad number), and otherwise answers the sum of the collected invalid values |
| Y2020Dec16.NearbyRow | 2020/dec16/dec16.kt:47-49 | a nearby row keeps the values collected so far and appends exactly its values that no field accepts |
| Y2020Dec16.Run2 | 2020/dec16/dec16.kt:60-91 | the field names are kept without repetition, exactly the keys of the field map |
| Y2020Dec16.Eliminate | 2020/dec16/dec16.kt:82-88 | the row loop fails exactly when a field with no candidate entry rejects a value, and otherwise removes from each field exactly the positions whose value it rejects |
| Y2020Dec16.EliminatedSound | 2020/dec16/dec16.kt:82-88 | after a row, each field keeps only positions it already had whose value it accepts |
| Y2020Dec16.SortBySize | 2020/dec16/dec16.kt:92 | the order is a permutation of the fields, by non-decreasing number of candidates |
| Y2020Dec16.Resolve | 2020/dec16/dec16.kt:92-103 | on success each field gets one of its candidates, no two fields share a position, your ticket's value there fits the field, and no other such assignment exists; a field with no candidates is an error |
| Y2020Dec16.Part2 | 2020/dec16/dec16.kt:59-113 | a bad line, no fields, or a field with no candidates is an error; an answer is the product of your values at the departure fields (all fields if none) under the unique assignment of positions |
| Y2020Day17.RecurseMembers | 2020/day17/day17.kt:21-32 | a cube is produced from a prefix exactly when it extends the prefix, every later coordinate is within one of the cube's, and it is not the cube itself |
| Y2020Day17.NeighborsMeaning | 2020/day17/day17.kt:20-34 | the neighbours of a cube are exactly the other cubes of its dimension whose coordinates all differ by at most one |
| Y2020Day17.NeighborsCount | 2020/day17/day17.kt:20-34 | a cube in d dimensions has 3^d - 1 neighbours |
| Y2020Day17.NeighborsDistinct | 2020/day17/day17.kt:20-34 | the neighbour sequence yields no cube twice, so counting occurrences counts adjacent active cubes |
| Y2020Day17.CountMeaning | 2020/day17/day17.kt:45 | the occurrence count of a cube in the flattened neighbour lists is the number of active cubes adjacent to it |
| Y2020Day17.StepRule | 2020/day17/day17.kt:43-46 | after a round a cube is active exactly when 3 active cubes surround it, or 2 do and it was active |
| Y2020Day17.Isolated | 2020/day17/day17.kt:43-46 | a cube with no active neighbour is inactive after a round |
| Y2020Day17.InitialCount | 2020/day17/day17.kt:38-41 | the initial active set has one cube per '#' cell |
| Y2020Day17.CountActiveAfter | 2020/day17/day17.kt:37-49 | fails exactly when fewer than two dimensions meet a '#' cell; otherwise returns the size of the state after max(rounds, 0) rounds |
| Y2020Day17.Part1 | 2020/day17/day17.kt:51-55 | the number of active cubes after six rounds in three dimensions |
| Y2020Day17.Part2 | 2020/day17/day17.kt:57-61 | the number of active cubes after six rounds in four dimensions |
| Y2020Dec18.DigitRun | 2020/dec18/dec18.kt:35 | the digit run is the longest prefix of decimal digits: all digits, followed by the end or a non-digit |
| Y2020Dec18.TokenizeRender | 2020/dec18/dec18.kt:35-44 | tokenizing numbers and symbols written out with spaces gives the tokens back: one token per maximal digit run or symbol, the spaces skipped |
| Y2020Dec18.Evaluate1 | 2020/dec18/dec18.kt:48-61 | the part 1 loop, with its recursive call for '(', returns the value and the position reached that the left-to-right evaluation of the remaining tokens gives |
| Y2020Dec18.Chain1 | 2020/dec18/dec18.kt:48-61 | evaluating a printed chain from 0 and + leaves its left-to-right value, whatever follows |
| Y2020Dec18.LineValue1 | 2020/dec18/dec18.kt:46-61 | part 1 evaluates every well-formed expression line to its value with no precedence between + and *, parentheses first, consuming the whole line |
| Y2020Dec18.Solve1 | 2020/dec18/dec18.kt:63-65 | the answer is the sum of the lines' part 1 values |
| Y2020Dec18.Solve1Meaning | 2020/dec18/dec18.kt:63-65 | for well-formed lines the summed values are the expressions' left-to-right values |
| Y2020Dec18.Calculate | 2020/dec18/dec18.kt:82-88 | the loop applies the stacked operators from the top to the top two numbers and fails unless exactly one number is left |
| Y2020Dec18.CalculateProduct | 2020/dec18/dec18.kt:82-88 | k stacked * over k + 1 numbers calculate to their product |
| Y2020Dec18.Evaluate2 | 2020/dec18/dec18.kt:70-99 | the part 2 loop over the two stacks fails exactly when the stack evaluation of the remaining tokens fails, and otherwise returns its value and position |
| Y2020Dec18.Chain2 | 2020/dec18/dec18.kt:75-81 | after a printed chain the stacks hold one * per finished sum and the finished sums under the sum in progress, so + is applied at once and * waits |
| Y2020Dec18.LineValue2 | 2020/dec18/dec18.kt:68-99 | part 2 evaluates every well-formed expression line to the product of its +-joined sums, consuming the whole line |
| Y2020Dec18.TimesLoosest | 2020/dec18/dec18.kt:68 | one more * operand multiplies the part 2 value |
| Y2020Dec18.PlusTighter | 2020/dec18/dec18.kt:68 | in c * a + b the sum a + b is formed before the product |
| Y2020Dec18.Juxtaposed | 2020/dec18/dec18.kt:48-81 | two numbers with no operator add in part 1 (the operator stays +) but fail in part 2 (no operator left to accumulate on) |
| Y2020Dec18.Solve2 | 2020/dec18/dec18.kt:101-103 | the answer is the sum of the lines' part 2 values, and fails when a line fails |
| Y2020Dec18.Solve2Meaning | 2020/dec18/dec18.kt:101-103 | for well-formed lines part 2 succeeds with the expressions' +-first values |
| Y2020Dec18.Example | 2020/dec18/dec18.kt:46-68 | 1 + 2 * 3 + 4 * 5 + 6 is 71 left to right and 231 with + first |
| Y2020Dec19.PieceParse | 2020/dec19/dec19.kt:28-34 | a text without a bar parses exactly as one alternative of a disjunction |
| Y2020Dec19.ParseKind | 2020/dec19/dec19.kt:28-34 | a text starting with a quote is a `Str` of the text without its quotes; otherwise one with a bar parses to an `Or` of at least two choices, and one without to a `Seq` with one id per space-separated word |
| Y2020Dec19.SplitSpacesJoin | 2020/dec19/dec19.kt:32 | splitting words joined by single spaces on runs of white space gives the words back |
| Y2020Dec19.OrPiecesJoin | 2020/dec19/dec19.kt:31 | splitting alternatives joined by bars on the bar pattern gives the alternatives back, without the spaces around the bars |
| Y2020Dec19.SeqRoundTrip | 2020/dec19/dec19.kt:32 | the space-separated text of a non-empty id list parses to that `Seq` |
| Y2020Dec19.StrRoundTrip | 2020/dec19/dec19.kt:30 | a quoted text parses to the `Str` of what is inside the quotes |
| Y2020Dec19.OrRoundTrip | 2020/dec19/dec19.kt:31 | alternatives joined by bars parse to the `Or` of those alternatives, when the text does not start with a quote |
| Y2020Dec19.StrMatches | 2020/dec19/dec19.kt:37-41 | a `Str` matches exactly its own length when the text starts with it, and nothing otherwise |
| Y2020Dec19.MatchesSound | 2020/dec19/dec19.kt:22-62 | every length the matcher reports is within the text, and the rule derives that prefix of the text |
| Y2020Dec19.MatchesComplete | 2020/dec19/dec19.kt:22-62 | with non-empty string rules, every prefix of the text the rule derives is a length the matcher reports |
| Y2020Dec19.GenNonEmpty | 2020/dec19/dec19.kt:43-47 | a rule whose strings are non-empty only derives non-empty words |
| Y2020Dec19.FuelMonotone | 2020/dec19/dec19.kt:22-62 | a match that finishes within a depth bound gives the same answer under any larger bound |
| Y2020Dec19.ReadRules | 2020/dec19/dec19.kt:70-82 | the rule table read from the definitions is the left fold of map updates over them, and fails when a definition fails to parse |
| Y2020Dec19.BuildRulesKeys | 2020/dec19/dec19.kt:70-82 | the table holds exactly the ids that have a definition |
| Y2020Dec19.BuildRulesLast | 2020/dec19/dec19.kt:70-82 | each id maps to the parse of its last definition |
| Y2020Dec19.FullMatchMeaning | 2020/dec19/dec19.kt:83-85 | a line counts exactly when rule 0 derives the whole line |
| Y2020Dec19.Solve | 2020/dec19/dec19.kt:83-86 | the answer is the number of non-blank lines rule 0 matches in full, and fails when the rules fail to read |
| Y2020Dec19.Replacement8 | 2020/dec19/dec19.kt:92-104 | in part 2 rule 8 parses to the disjunction of the sequences 42 and 42 8 |
| Y2020Dec19.Replacement11 | 2020/dec19/dec19.kt:92-104 | in part 2 rule 11 parses to the disjunction of the sequences 42 31 and 42 11 31 |

| Y2020Dec20.SideLaws | 2020/dec20/dec20.kt:29-53 | `opposite` is an involution with no fixed point two indices further on, `index` lists the sides in order, a step by a side and then by its opposite returns to the start, and every step moves by exactly one |
| Y2020Dec20.Extremes | 2020/dec20/dec20.kt:56-62 | the least and greatest coordinate of a non-empty pattern are coordinates of its points and bound all of them |
| Y2020Dec20.ShiftedCorners | 2020/dec20/dec20.kt:56-64 | shifting a pattern moves its origin and its maximum corner by the offset |
| Y2020Dec20.ShiftedTwice | 2020/dec20/dec20.kt:64 | shifting by one offset and then another is shifting by their sum |
| Y2020Dec20.ParsePattern | 2020/dec20/dec20.kt:56-72 | the pattern fails (the `checkNotNull` of its origin) exactly when no line holds a '#'; otherwise a point is in it iff the character at its row and column is '#' |
| Y2020Dec20.EdgeTextInjective | 2020/dec20/dec20.kt:27 | two pixel rows with the same '#'/'.' text are equal |
| Y2020Dec20.EdgesMeaning | 2020/dec20/dec20.kt:81-86 | the four edges have the tile's size, and character j of each is '#' iff pixel j of the top row, right column, bottom row or left column is set |
| Y2020Dec20.DirectionToChain | 2020/dec20/dec20.kt:90-91 | `directionTo` is the first of north, east, south, west on which the other tile's opposite edge equals this tile's edge, else nothing |
| Y2020Dec20.DirectionToMeaning | 2020/dec20/dec20.kt:90-91 | it names side s iff the tiles fit on s and on no side of lower index, and it is null iff they fit on no side |
| Y2020Dec20.FitsSymmetric | 2020/dec20/dec20.kt:90-91 | one tile fits another on side s iff the other fits it on the opposite side |
| Y2020Dec20.FlipsInvolutions | 2020/dec20/dec20.kt:93-95 | both flips keep the id, the size and squareness, and applying either twice gives the tile back |
| Y2020Dec20.RotateClockwise | 2020/dec20/dec20.kt:97-103 | the array loop fills row i with column i of the grid, which is the transpose, keeping the id |
| Y2020Dec20.TransposeTwice | 2020/dec20/dec20.kt:97-103 | rotating twice gives the original grid back |
| Y2020Dec20.RotationsAlternate | 2020/dec20/dec20.kt:105-110 | the three rotations are the rotated tile, the tile and the rotated tile again |
| Y2020Dec20.VariantsAreSymmetries | 2020/dec20/dec20.kt:112-122 | the variants together with the tile are exactly its eight symmetries |
| Y2020Dec20.VariantsKeep | 2020/dec20/dec20.kt:112-122 | every variant keeps the id and the size and is square |
| Y2020Dec20.VariantCases | 2020/dec20/dec20.kt:112-122 | every variant is the tile, a flip or the double flip, each possibly rotated |
| Y2020Dec20.FlipsAreVariants | 2020/dec20/dec20.kt:112-122 | both flips of a tile are among its variants |
| Y2020Dec20.VariantsOriented | 2020/dec20/dec20.kt:81-122 | every variant has the same edges as the tile when each is read in both directions |
| Y2020Dec20.VariantEdges | 2020/dec20/dec20.kt:81-122 | a text is an edge of some variant iff it is an edge of the tile read forwards or backwards |
| Y2020Dec20.MatchesAtMeaning | 2020/dec20/dec20.kt:124-131 | a pattern matches iff every one of its points lies inside the tile on a set pixel |
| Y2020Dec20.MatchingOffsets | 2020/dec20/dec20.kt:133-137 | the offsets kept are exactly the listed offsets at which the shifted pattern matches |
| Y2020Dec20.FindMatchesMeaning | 2020/dec20/dec20.kt:133-137 | an offset is found iff it is inside the grid and every shifted point of the pattern is a set pixel inside the tile |
| Y2020Dec20Grid.MakeTile | 2020/dec20/dec20.kt:76-86 | building a tile succeeds exactly on a square grid, with the given id and grid; an empty grid, a height other than the first row's length and an empty row are the source's exceptions |
| Y2020Dec20Grid.ParseTile | 2020/dec20/dec20.kt:143-156 | every tile parsed has a square grid |
| Y2020Dec20Grid.ParseTileText | 2020/dec20/dec20.kt:143-156 | parsing the heading "Tile id:" followed by the rows drawn in '#' and '.' gives the tile back |
| Y2020Dec20Grid.Put | 2020/dec20/dec20.kt:167-169 | setting a cell changes that cell and leaves every other cell and the shape as they were |
| Y2020Dec20Grid.UsedAsWrittenMisses | 2020/dec20/dec20.kt:163-175 | `isUsed` over `allPoints` misses a tile in the last row or column: on a 2 by 2 grid the tile at (1, 1) is placed but not seen as used |
| Y2020Dec20Grid.UsedAsWrittenWeaker | 2020/dec20/dec20.kt:163-175 | whatever the source's `isUsed` sees is placed in the grid |
| Y2020Dec20Grid.TileGrid.constructor | 2020/dec20/dec20.kt:160-161 | a new grid of the given size has every cell empty |
| Y2020Dec20Grid.TileGrid.Get | 2020/dec20/dec20.kt:165 | reading a point gives the tile in that cell |
| Y2020Dec20Grid.TileGrid.Set | 2020/dec20/dec20.kt:167-169 | writing a point changes exactly that cell of the array |
| Y2020Dec20Grid.TileGrid.ValidPlacement | 2020/dec20/dec20.kt:177-194 | true iff the point is in the grid and, for every listed direction, the neighbour is in the grid and, when set, is the tile's `directionTo` in that direction |
| Y2020Dec20Grid.TileGrid.Copy | 2020/dec20/dec20.kt:196-204 | the copy is a new grid with new cells, of the same size and contents |
| Y2020Dec20Search.PutShrinks | 2020/dec20/dec20.kt:303-306 | placing a tile in an unset cell makes the set of unset cells strictly smaller, so the recursion ends |
| Y2020Dec20Search.Spread | 2020/dec20/dec20.kt:309-317 | the queue after adding the placed tile's neighbours still holds only unset points inside the grid |
| Y2020Dec20Search.SpreadEdges | 2020/dec20/dec20.kt:309-317 | the loop over the placed tile's edges gives the queue and expected edges of `Spread` |
| Y2020Dec20Search.TryTilePlaces | 2020/dec20/dec20.kt:300-318 | an unused tile that fits is tried by recursing on the grid with it placed, and the neighbours queued |
| Y2020Dec20Search.Recurse | 2020/dec20/dec20.kt:283-323 | the recursion returns the failure, the null or the grid that `Search` describes, building each candidate in a fresh copy |
| Y2020Dec20Search.PlaceFrom | 2020/dec20/dec20.kt:299-320 | the loop over the tiles listed for an edge returns what `TryTiles` describes: the first grid any of them leads to |
| Y2020Dec20Search.PlaceOne | 2020/dec20/dec20.kt:300-318 | one tile is skipped when used or not placeable and otherwise leads to the recursive call |
| Y2020Dec20Search.PutFits | 2020/dec20/dec20.kt:177-194 | placing a tile that passes `validPlacement` for its expected directions keeps every placed tile's expected directions inside the grid and every pair of filled neighbours passing the check of the one placed later |
| Y2020Dec20Search.SearchFound | 2020/dec20/dec20.kt:283-323 | a grid the search finds keeps every tile already placed, has its top-left cell set, keeps the ids of the tiles distinct and keeps every placement fitting its neighbours as `validPlacement` checks them |
| Y2020Dec20Search.TryTileFound | 2020/dec20/dec20.kt:299-318 | the same for a grid found after placing one tile, which is placed only where `validPlacement` allows it |
| Y2020Dec20Search.SearchFromBlank | 2020/dec20/dec20.kt:325-331 | started on an empty grid with the top-left cell queued, a grid found has that cell set, no id twice and every tile placed where `validPlacement` allowed it |
| Y2020Dec20Corners.ParseTiles | 2020/dec20/dec20.kt:228 | every paragraph is parsed in order, and a failure is the failure of some paragraph |
| Y2020Dec20Corners.ById | 2020/dec20/dec20.kt:229 | every id of the list is a key, mapped to a tile of the list with that id |
| Y2020Dec20Corners.ByIdLast | 2020/dec20/dec20.kt:229 | a tile is the one kept for its id unless a later tile has the same id |
| Y2020Dec20Corners.VariantsById | 2020/dec20/dec20.kt:230 | the variants are keyed by the same ids, every one of them square |
| Y2020Dec20Corners.BuildIndex | 2020/dec20/dec20.kt:231-236 | the loops map each edge text to exactly the variants having that edge |
| Y2020Dec20Corners.MatchesMeaning | 2020/dec20/dec20.kt:239-241 | the ids matched for a tile are exactly the other ids whose tile shares an edge with it, each read in either direction |
| Y2020Dec20Corners.CornersMeaning | 2020/dec20/dec20.kt:238-245 | the ids counted as corners are exactly those with two neighbouring tiles |
| Y2020Dec20Corners.CornerIds | 2020/dec20/dec20.kt:237-245 | the loop multiplies the corner ids |
| Y2020Dec20Corners.Part1 | 2020/dec20/dec20.kt:226-247 | a parse failure is returned; otherwise the answer is the product of the ids whose tile has exactly two neighbours |
| Y2020Dec20Stitch.LineMeaning | 2020/dec20/dec20.kt:210-216 | a stitched row exists iff every cell of the grid row holds a tile with that row and enough pixels in it, and then has s - 2 pixels per cell |
| Y2020Dec20Stitch.BlocksRow | 2020/dec20/dec20.kt:210-216 | stitched row y is tile row y % k + 1 of grid row y / k |
| Y2020Dec20Stitch.StitchOk | 2020/dec20/dec20.kt:206-219 | the stitch succeeds iff every cell is set, the top-left tile is larger than 2 and no tile is smaller than it by more than one |
| Y2020Dec20Stitch.StitchPixels | 2020/dec20/dec20.kt:206-219 | the stitched tile has id 0 and side n times k, k being the top-left size less 2, and its pixel (y, x) is inner pixel (y % k + 1, x % k + 1) of the tile at cell (y / k, x / k) |
| Y2020Dec21.OccurrencesPositive | 2020/dec21/dec21.kt:28-30 | an ingredient named on some line is counted at least once, and one named nowhere is counted zero times |
| Y2020Dec21.CountStep | 2020/dec21/dec21.kt:28-30 | counting one more ingredient of a line adds one to its count (starting at 0 via `getOrDefault`) and keeps the counts equal to those of the lines read so far |
| Y2020Dec21.CountsIgnoreAllergens | 2020/dec21/dec21.kt:28-30 | the ingredient counts do not depend on the allergen lists |
| Y2020Dec21.CountLine | 2020/dec21/dec21.kt:28-30 | counting one line turns the counts of the earlier lines into the counts of the lines up to and including it |
| Y2020Dec21.CountIngredients | 2020/dec21/dec21.kt:22-30 | the counts map holds exactly the ingredients of the input, each with its number of occurrences over all lines |
| Y2020Dec21.CandidatesOf | 2020/dec21/dec21.kt:31-37 | an allergen has candidates exactly when some line lists it |
| Y2020Dec21.CandidatesMeaning | 2020/dec21/dec21.kt:31-37 | an ingredient is a candidate for an allergen iff every line listing the allergen lists the ingredient |
| Y2020Dec21.CandidatesOfStep | 2020/dec21/dec21.kt:32-36 | one more allergen of a line intersects that allergen's candidates with the line's ingredients when present and sets them to the line's ingredients when absent, leaving every other allergen's candidates alone |
| Y2020Dec21.AddNew | 2020/dec21/dec21.kt:31-37 | the key order after putting a line's allergens holds the old keys and the new ones, still without duplicates |
| Y2020Dec21.Order | 2020/dec21/dec21.kt:31-37 | the key order of `allergenCandidates` holds each listed allergen exactly once |
| Y2020Dec21.CollectStep | 2020/dec21/dec21.kt:32-36 | one allergen step keeps the key order and the candidates map equal to those of the lines read so far |
| Y2020Dec21.CollectLine | 2020/dec21/dec21.kt:31-37 | the allergen loop of one line turns the order and candidates of the earlier lines into those of the lines up to and including it |
| Y2020Dec21.Collect | 2020/dec21/dec21.kt:23-39 | after every line the key order and the candidates map are those of the whole input |
| Y2020Dec21.SafeMeaning | 2020/dec21/dec21.kt:40-41 | an ingredient is counted as safe iff it occurs on some line and every listed allergen has a line that lists it without that ingredient, and it then contributes its full, positive number of occurrences |
| Y2020Dec21.Part1 | 2020/dec21/dec21.kt:20-42 | the answer is the sum of the occurrence counts of the ingredients that no allergen's candidates contain |
| Y2020Dec21.FirstMin | 2020/dec21/dec21.kt:69 | the chosen allergen is in the queue, has a candidate set no larger than any other, and every allergen before it in the map's order has a strictly larger one |
| Y2020Dec21.Without | 2020/dec21/dec21.kt:73 | removing an allergen from the key order leaves exactly the other keys, without duplicates, and shortens the order when the allergen was there |
| Y2020Dec21.Drop | 2020/dec21/dec21.kt:73-74 | the queue loses the pinned allergen and every other allergen loses the pinned ingredient from its candidates |
| Y2020Dec21.Singleton | 2020/dec21/dec21.kt:70-71 | a set of size one has one element, so `candidates.first()` is whatever element is taken |
| Y2020Dec21.ResolveStep | 2020/dec21/dec21.kt:66-75 | one round of the loop on a size-one candidate set leads to the same outcome whichever candidate is named |
| Y2020Dec21.ApartStep | 2020/dec21/dec21.kt:72-74 | after a round the pinned ingredients are still distinct and absent from every queued candidate set |
| Y2020Dec21.ResolveSound | 2020/dec21/dec21.kt:66-75 | when the loop ends without failing, each allergen that was queued is pinned to one of its candidates, the earlier pins stay, and no two allergens share an ingredient |
| Y2020Dec21.Part2Sound | 2020/dec21/dec21.kt:47-77 | on success every listed allergen is pinned to an ingredient that appears on every line listing it, and distinct allergens to distinct ingredients |
| Y2020Dec21.Eliminate | 2020/dec21/dec21.kt:65-75 | the `while` loop over the queue returns the outcome of the elimination, including the failed `check` on a candidate set of size other than one |
| Y2020Dec21.Part2 | 2020/dec21/dec21.kt:47-78 | the answer is the eliminated assignment rendered by allergen name, or the elimination's failure |
| Y2020Day22.ScoreFromTop | 2020/day22/day22.kt:38-40 | the score (weights counted from the bottom on the reversed deck) equals the top-down sum in which the top card of n counts n times |
| Y2020Day22.ScoreAddBottom | 2020/day22/day22.kt:38-40 | putting a card at the bottom adds the sum of the other cards plus the new card to the score |
| Y2020Day22.Deck.constructor | 2020/day22/day22.kt:37 | a deck holds the given name and cards |
| Y2020Day22.Deck.Score | 2020/day22/day22.kt:38-40 | the deck's score is the weighted sum of its cards, each card counted as many times as its place from the bottom |
| Y2020Day22.Deck.Draw | 2020/day22/day22.kt:46 | removes and returns the top card; an empty deck throws and is left as it was |
| Y2020Day22.Deck.AddWinnings | 2020/day22/day22.kt:48-51 | appends its two arguments at the bottom, in argument order |
| Y2020Day22.Deck.Take | 2020/day22/day22.kt:53 | a fresh deck of the same name holding the first count cards (all of them when there are fewer), the original untouched; a negative count throws |
| Y2020Day22.CardLines | 2020/day22/day22.kt:29-31 | writes one decimal card per line |
| Y2020Day22.Decks | 2020/day22/day22.kt:18-35 | parsing succeeds only with exactly two decks |
| Y2020Day22.ParseDecks | 2020/day22/day22.kt:18-35 | the loop over the lines yields two fresh, distinct decks holding the parsed names and cards, or the parse's error |
| Y2020Day22.ReadFromAppend | 2020/day22/day22.kt:22-32 | reading a concatenation of lines is reading the first part and then the rest from where it stopped |
| Y2020Day22.ReadCardLines | 2020/day22/day22.kt:29-31 | non-blank lines that are not headers and read as integers append those integers to the current deck in order |
| Y2020Day22.ParseLayout | 2020/day22/day22.kt:18-35 | two decks written as a "Player" header followed by their cards, with a blank line between, are read back as exactly those two decks with their cards in input order |
| Y2020Day22.Round1 | 2020/day22/day22.kt:62-71 | a round of Combat fails the check iff the drawn cards are equal, and otherwise keeps the number of cards |
| Y2020Day22.Round1Conserves | 2020/day22/day22.kt:62-71 | a round of Combat keeps the multiset of cards on the table |
| Y2020Day22.Play1 | 2020/day22/day22.kt:62-71 | a finished game of Combat leaves one deck empty |
| Y2020Day22.Play1Conserves | 2020/day22/day22.kt:62-71 | a finished game of Combat holds the same multiset of cards it started with |
| Y2020Day22.Play1Fuel | 2020/day22/day22.kt:62-71 | once a game ends within some number of rounds, allowing more rounds gives the same result |
| Y2020Day22.Part1 | 2020/day22/day22.kt:60-73 | the loop over the two decks returns the score of the first non-empty deck after the game, or the failure of the parse, of the `check` or of a game longer than the round bound |
| Y2020Day22.Arranged | 2020/day22/day22.kt:84-89 | every deck order is one of the arrangements of its cards, so the set of reachable table states is finite |
| Y2020Day22.InStates | 2020/day22/day22.kt:84-89 | every table is one of the ways of dealing its cards into two decks |
| Y2020Day22.Fewer | 2020/day22/day22.kt:86-89 | adding an unseen state to the seen set shrinks the set of unseen states, which is why the game ends |
| Y2020Day22.Game | 2020/day22/day22.kt:83-108 | on success the first deck is returned iff it is non-empty at the end, and a game that stops with both decks non-empty (the repeat rule) is won by player 1 |
| Y2020Day22.GameConserves | 2020/day22/day22.kt:83-108 | a game of Recursive Combat ends with the multiset of cards it started with |
| Y2020Day22.Round2 | 2020/day22/day22.kt:90-101 | a round of Recursive Combat keeps the number of cards on the table |
| Y2020Day22.Round2Conserves | 2020/day22/day22.kt:90-101 | a round of Recursive Combat keeps the multiset of cards on the table |
| Y2020Day22.RoundsAgree | 2020/day22/day22.kt:92-96 | without a sub-game and with distinct names and cards, a round of Recursive Combat is a round of Combat |
| Y2020Day22.RecursiveCombat | 2020/day22/day22.kt:83-108 | the loop with its seen-state set plays the game of the decks' contents, leaves the decks as the game ends and returns the winning deck object, or the game's failure |
| Y2020Day22.PlayRound | 2020/day22/day22.kt:90-101 | drawing, the sub-game on `take` copies when both cards are at most the cards left, otherwise the higher card, and the name match give the winner's deck the two cards, its own first |
| Y2020Day22.Part2 | 2020/day22/day22.kt:110-113 | returns the score of the deck Recursive Combat returns, or the failure |
| Y2020Dec23.LayoutIsCycle | 2020/dec23/dec23.kt:48-65 | the initial circle (the labels, then max + 1 up to totalSize + min − 1) holds every label from min to max exactly once and starts with the input labels |
| Y2020Dec23.LinkChain | 2020/dec23/dec23.kt:58-64 | the loop links each cup to the one after it in `initial.drop(1) + (max + 1..max)` and records every cup it creates, ending on the last one |
| Y2020Dec23.CupCycle.constructor | 2020/dec23/dec23.kt:48-65 | min and max are set as in the source, the current cup is the first label, and the links and node index form a circle over the initial layout |
| Y2020Dec23.CupCycle.Take | 2020/dec23/dec23.kt:25-33 | taking n nodes from a cup yields the n labels read along the circle from that cup |
| Y2020Dec23.SliceAfter | 2020/dec23/dec23.kt:68-69 | the three cups after the current one are the three following it in the circle |
| Y2020Dec23.Destination | 2020/dec23/dec23.kt:71-74 | the do-while loop returns the destination label `Dest` |
| Y2020Dec23.DestFree | 2020/dec23/dec23.kt:71-74 | the destination is a label in range that is not one of the three picked up, and differs from the current cup when there are at least five cups |
| Y2020Dec23.DestNearest | 2020/dec23/dec23.kt:71-74 | the destination is the largest free label below the current one, or the largest free label when none is below |
| Y2020Dec23.RoundInserts | 2020/dec23/dec23.kt:67-79 | after a round, read from the destination, the circle is the destination, the three picked-up cups in order, then the rest as it was |
| Y2020Dec23.RoundCurrent | 2020/dec23/dec23.kt:78 | the new current cup is the one that followed the three picked up (the one after the current cup when there are only four), and the old current cup is last |
| Y2020Dec23.RoundIsCycle | 2020/dec23/dec23.kt:67-79 | a round keeps every label exactly once |
| Y2020Dec23.Rounds | 2020/dec23/dec23.kt:88 | any number of rounds keeps every label exactly once |
| Y2020Dec23.Relink | 2020/dec23/dec23.kt:70-77 | the three pointer writes of a round turn links of the old circle into links of the new one |
| Y2020Dec23.CircleRound | 2020/dec23/dec23.kt:67-79 | after the pointer writes the links, the node index and the new current cup describe the circle of `Round`, over the same labels |
| Y2020Dec23.CupCycle.PlayRound | 2020/dec23/dec23.kt:67-79 | the circle becomes `Round` of the old one, the invariant is kept and the node index keeps the same labels |
| Y2020Dec23.PlayRounds | 2020/dec23/dec23.kt:88 | `repeat(n) { playRound() }` leaves the circle of n rounds |
| Y2020Dec23.SeekOne | 2020/dec23/dec23.kt:89-92 | walking the links from the current cup reaches cup 1 |
| Y2020Dec23.AfterOne | 2020/dec23/dec23.kt:89-93 | from cup 1 the walk of one less than all cups reads the circle on from cup 1, and the two links after it are the next two cups |
| Y2020Dec23.Labels | 2020/dec23/dec23.kt:86 | each character is read with `toInt`; a character that is not a digit is a NumberFormatException |
| Y2020Dec23.LabelsDigits | 2020/dec23/dec23.kt:86 | a line reads as labels iff it is all digits, each label the digit's value |
| Y2020Dec23.LabelStringLabels | 2020/dec23/dec23.kt:93 | single-digit labels joined without a separator read back as the same labels |
| Y2020Dec23.LabelsAfterOne | 2020/dec23/dec23.kt:89-93 | Part 1's readout is the circle read from cup 1, without cup 1 |
| Y2020Dec23.ProductAfterOne | 2020/dec23/dec23.kt:106-110 | Part 2's readout is the product of the two labels after cup 1 |
| Y2020Dec23.PlayGame | 2020/dec23/dec23.kt:87-88 | building the circle and playing n rounds gives the circle of `Rounds` on the initial layout |
| Y2020Dec23.Part1 | 2020/dec23/dec23.kt:84-94 | an empty line is the NullPointerException of `minOrNull()!!`; otherwise the answer is the labels after cup 1 after 100 rounds, or the parse error |
| Y2020Dec23.Part2 | 2020/dec23/dec23.kt:101-111 | an empty line is the NullPointerException of `minOrNull()!!`; otherwise the answer with one million cups and ten million rounds is the product of the two labels after cup 1, or the parse error |
| Y2020Dec24.OppositeCancels | 2020/dec24/dec24.kt:21-28 | east and west, north-east and south-west, north-west and south-east have opposite deltas, so a step and its opposite return to the same tile |
| Y2020Dec24.NeighborsShape | 2020/dec24/dec24.kt:31 | the six neighbours are six different tiles other than the tile itself, and a tile is a neighbour of each of its neighbours |
| Y2020Dec24.DirectionsRender | 2020/dec24/dec24.kt:36-56 | a line reads as a list of directions exactly when it is the concatenation of their names e, w, se, sw, ne, nw; any other text is an error |
| Y2020Dec24.DirectionsCount | 2020/dec24/dec24.kt:36-56 | the number of directions read is the line length minus the number of 's' and 'n' characters |
| Y2020Dec24.DirectionSequence | 2020/dec24/dec24.kt:36-56 | the loop over the index yields the directions of `DirectionsFrom`, failing with the unexpected-direction error or reading past a trailing 's' or 'n' |
| Y2020Dec24.WalkSums | 2020/dec24/dec24.kt:59 | folding the steps from a tile moves it by the summed deltas of the steps |
| Y2020Dec24.CancelPair | 2020/dec24/dec24.kt:59 | a step followed by its opposite anywhere in a line does not change the tile found |
| Y2020Dec24.FindTile | 2020/dec24/dec24.kt:59 | a line fails exactly when it does not read as directions, with that error; otherwise the tile found is the reference tile moved by the summed deltas of its directions |
| Y2020Dec24.FindTiles | 2020/dec24/dec24.kt:65 | on success there is one tile per line, each the tile its line leads to; otherwise the error is some line's error |
| Y2020Dec24.ReadTiles | 2020/dec24/dec24.kt:65 | reading the lines one by one gives `FindTiles`, stopping at the first failing line |
| Y2020Dec24.OddTilesFlipped | 2020/dec24/dec24.kt:65 | the tiles reached an odd number of times are the black tiles left by flipping tile after tile |
| Y2020Dec24.Part1 | 2020/dec24/dec24.kt:64-67 | the answer is the number of tiles reached an odd number of times, or the error |
| Y2020Dec24.AdjacentCount | 2020/dec24/dec24.kt:78-80 | a tile is a key of `adjacent` iff some neighbour is black, and its count is the number of black neighbours |
| Y2020Dec24.LifeRule | 2020/dec24/dec24.kt:81-82 | after a round a black tile is black iff one or two neighbours are black, and a white tile is black iff exactly two are |
| Y2020Dec24.PlayDays | 2020/dec24/dec24.kt:77-83 | reassigning `flipped` each round gives the black tiles after that many rounds |
| Y2020Dec24.Part2 | 2020/dec24/dec24.kt:74-85 | the answer is the number of black tiles after 100 rounds from part 1's black tiles, or the error |
| Y2020Dec11.NeighborsBound | 2020/dec11/dec11.kt:59-69 | the count over the clipped 3 by 3 block without the centre is at most eight |
| Y2020Dec11.NeighborsZero | 2020/dec11/dec11.kt:59-69 | the neighbour count is zero iff no adjacent cell of the grid holds the character |
| Y2020Dec11.SeesMeaning | 2020/dec11/dec11.kt:117-128 | a walk counts a direction iff some cell along it holds the character and every cell before it is floor |
| Y2020Dec11.VisibleBound | 2020/dec11/dec11.kt:112-133 | at most one seat counts per direction, so the sight count is at most eight |
| Y2020Dec11.NextCells | 2020/dec11/dec11.kt:45-50 | a round keeps the shape, floor stays floor and only floor does, an empty seat fills iff its count is zero and an occupied seat empties iff its count reaches the tolerance |
| Y2020Dec11.FillsWhenAlone | 2020/dec11/dec11.kt:46 | in part 1 an empty seat fills iff no adjacent cell is occupied |
| Y2020Dec11.Settle | 2020/dec11/dec11.kt:23-31 | a settled result is a grid that the next round leaves unchanged |
| Y2020Dec11.SettleIsRounds | 2020/dec11/dec11.kt:23-31 | the result is the grid after the first round count whose grid is a fixpoint, and failure means none of the grids within the bound is one |
| Y2020Dec11.SettledMeaning | 2020/dec11/dec11.kt:45-50 | in a settled grid every empty seat has an occupant around it and every occupied seat fewer than the tolerance |
| Y2020Dec11.OccupiedZero | 2020/dec11/dec11.kt:26 | the occupied count is zero iff no cell holds '#' |
| Y2020Dec11.Grid.Contents | 2020/dec11/dec11.kt:36-38 | the rows of the grid: one per array row, of the array's width, cell for cell |
| Y2020Dec11.Grid.constructor | 2020/dec11/dec11.kt:36-38 | a grid keeps the array it is given and its rule, and has at least one row as `cells[0]` demands |
| Y2020Dec11.Grid.CountNeighbors | 2020/dec11/dec11.kt:59-69 | the nested loops count the matching cells of the clipped block other than the centre |
| Y2020Dec11.Grid.CountVisible | 2020/dec11/dec11.kt:112-133 | the loops over the eight directions count the directions whose first non-floor cell holds the character |
| Y2020Dec11.Grid.Look | 2020/dec11/dec11.kt:117-128 | the walk stops at the first cell that holds the character or is not floor, and reports whether it held the character |
| Y2020Dec11.Grid.CountOccupants | 2020/dec11/dec11.kt:46-47 | part 1 counts adjacent occupied seats and part 2 occupied seats in sight |
| Y2020Dec11.Grid.NextCell | 2020/dec11/dec11.kt:45-50 | the new content of one cell by the rule, and nothing for a character other than L, # and . |
| Y2020Dec11.Grid.FillRow | 2020/dec11/dec11.kt:44-54 | fills one row of the new array with the next round's cells and counts the cells that change, writing no other row |
| Y2020Dec11.Grid.Evolve | 2020/dec11/dec11.kt:40-57 | fails iff some cell is not a seat or floor; otherwise returns a grid holding the next round, which is the receiver itself iff no cell changed and a fresh one otherwise, and never writes the receiver's cells |
| Y2020Dec11.FromLines | 2020/dec11/dec11.kt:18 | the lines become a grid cell for cell, and no lines fail on `cells[0]` |
| Y2020Dec11.Solve | 2020/dec11/dec11.kt:21-31 | evolving until a round returns the same grid and counting '#' gives the occupied seats of the settled grid, or the error |
| Y2020Dec11.ProgressStep | 2020/dec11/dec11.kt:74-85 | each round of the loop that changes the grid keeps the cells valid and the settled result the same |
| Y2021Day19.RotateBack | 2021/day19/day19.go:53-65 | a quarter turn followed by a turn back about the same axis gives the point back |
| Y2021Day19.RotateNorm | 2021/day19/day19.go:53-65 | a quarter turn keeps the Manhattan norm |
| Y2021Day19.RotatePlus | 2021/day19/day19.go:53-65 | a quarter turn is linear: turning a sum is the sum of the turned points |
| Y2021Day19.MinusPlus | 2021/day19/day19.go:99-105 | `minus` and `plus` by the same point undo each other |
| Y2021Day19.FourTurns | 2021/day19/day19.go:53-65 | four quarter turns about one axis in one direction give every point back, and one, two or three turns move the point (1,2,3) |
| Y2021Day19.RepeatNorm | 2021/day19/day19.go:53-65 | any number of quarter turns keeps the norm |
| Y2021Day19.RepeatPlus | 2021/day19/day19.go:53-65 | repeated turns commute with adding points |
| Y2021Day19.TurnedNorm | 2021/day19/day19.go:67-97 | `rotateMultiple` keeps the norm |
| Y2021Day19.TurnedPlus | 2021/day19/day19.go:67-97 | `rotateMultiple` commutes with adding points, so distances between turned beacons are the turned distances |
| Y2021Day19.TurnsDoNotCommute | 2021/day19/day19.go:7-11 | a quarter turn about x then y differs from y then x on the point (0,1,0), so the order x, y, z of `rotateMultiple` matters |
| Y2021Day19.RotateMultiple | 2021/day19/day19.go:67-97 | the three loops turn by the x count, then the y count, then the z count, each backwards when negative |
| Y2021Day19.RotateInjective | 2021/day19/day19.go:53-65 | a quarter turn maps different points to different points |
| Y2021Day19.RepeatInjective | 2021/day19/day19.go:53-65 | repeated quarter turns map different points to different points |
| Y2021Day19.TurnedInjective | 2021/day19/day19.go:67-97 | `rotateMultiple` maps different points to different points |
| Y2021Day19.TurnedSetAdd | 2021/day19/day19.go:117-123 | turning a set with one more point adds that point turned |
| Y2021Day19.ShiftedSetAdd | 2021/day19/day19.go:135-141 | shifting a set with one more point adds that point shifted |
| Y2021Day19.TurnedSetSize | 2021/day19/day19.go:117-123 | turning a report keeps its number of beacons, since no two beacons land on one point |
| Y2021Day19.ShiftedSetSize | 2021/day19/day19.go:135-141 | shifting a report keeps its number of beacons |
| Y2021Day19.ShiftBack | 2021/day19/day19.go:135-141 | offsetting by d and then by the opposite of d gives the point set back, origin included |
| Y2021Day19.RotatedShape | 2021/day19/day19.go:117-123 | a rotated report has as many beacons as the original and keeps every distance between two of its beacons |
| Y2021Day19.RotatePointset | 2021/day19/day19.go:117-123 | the set built by the loop is every beacon turned; the origin is turned and the turns are added to the rotation |
| Y2021Day19.OffsetPointset | 2021/day19/day19.go:135-141 | the set built by the loop is every beacon moved by d; the origin is moved and the rotation kept |
| Y2021Day19.FaceTurns | 2021/day19/day19.go:128-130 | the inner loop yields face f combined with each of the four x turns, in order |
| Y2021Day19.AppendFace | 2021/day19/day19.go:127-131 | appending the four turns of the next face extends the orientations built so far |
| Y2021Day19.AllOrientations | 2021/day19/day19.go:125-133 | 24 orientations, entry 4f+x being the report rotated by face f combined with x turn x |
| Y2021Day19.CountMatches | 2021/day19/day19.go:147-152 | the count is the number of beacons of t that s also reports |
| Y2021Day19.SharedStep | 2021/day19/day19.go:147-152 | taking one more beacon of t adds one to the shared count iff s reports it |
| Y2021Day19.Overlap | 2021/day19/day19.go:143-159 | a result is o laid so that one of its beacons lands on one of s and then shares at least 12 beacons with s; no result means no such laying exists |
| Y2021Day19.Indices | 2021/day19/day19.go:187 | the scanner numbers are exactly 0 to n-1, n of them |
| Y2021Day19.PlaceOne | 2021/day19/day19.go:209-212 | placing scanner i onto j keeps every placement and every failed try valid |
| Y2021Day19.PlacedKeep | 2021/day19/day19.go:209-212 | after placing i, every placed scanner still fits onto the scanner it was placed on |
| Y2021Day19.ViaKeep | 2021/day19/day19.go:209-212 | one earlier placement stays valid when another scanner is placed |
| Y2021Day19.TriedKeep | 2021/day19/day19.go:199-202 | pairs already tried stay failed when another scanner is placed |
| Y2021Day19.FirstFit | 2021/day19/day19.go:204-213 | the first fitting orientation is returned with a proof that it fits, and none means every orientation misses |
| Y2021Day19.TryPair | 2021/day19/day19.go:198-213 | the pair is marked as tried; either scanner i is placed by fitting onto j or no orientation of i fits onto j |
| Y2021Day19.TryDevice | 2021/day19/day19.go:195-214 | either i is placed and nothing else changes, or i has been tried against every placed scanner |
| Y2021Day19.SweptStep | 2021/day19/day19.go:191-215 | after device i the pass has tried every unplaced scanner up to i against every placed one |
| Y2021Day19.SweptStalled | 2021/day19/day19.go:216-218 | a pass that places nothing and tried every pair proves that no unplaced scanner fits anywhere |
| Y2021Day19.UnplacedStep | 2021/day19/day19.go:209-210 | placing one scanner lowers the number still unplaced by one |
| Y2021Day19.NoneUnplaced | 2021/day19/day19.go:188 | nothing unplaced means every scanner is placed |
| Y2021Day19.Align | 2021/day19/day19.go:183-221 | no scanners gives the panic; otherwise scanner 0 keeps its report, each other placed scanner fits onto one placed earlier, and either all are placed or no unplaced orientation fits onto any placed report (the fatal stop) |
| Y2021Day19.ChainLinks | 2021/day19/day19.go:183-221 | every placed scanner is linked to scanner 0 by a chain of fitted pairs |
| Y2021Day19.BeaconsAdd | 2021/day19/day19.go:227-231 | one more report adds its beacons to the union |
| Y2021Day19.BeaconsCover | 2021/day19/day19.go:227-231 | every report is part of the union of beacons |
| Y2021Day19.CountBeacons | 2021/day19/day19.go:224-233 | the count is the number of distinct beacons over all placed reports, and at least the size of each report |
| Y2021Day19.SubsetSize | 2021/day19/day19.go:232 | a subset is no larger |
| Y2021Day19.RaiseMax | 2021/day19/day19.go:238-243 | the inner loop raises the running maximum to cover the distance from one scanner to every placed scanner, and any raise is attained |
| Y2021Day19.BoundsStep | 2021/day19/day19.go:237-244 | covering one more scanner extends the upper bound |
| Y2021Day19.MaxDistance | 2021/day19/day19.go:236-246 | the result bounds the distance between every two placed scanner origins and is attained by a pair |
| Y2021Day19.Attained | 2021/day19/day19.go:236-246 | the maximum bounds every pair and some pair attains it |
| Y2021Day19.Part1 | 2021/day19/day19.go:224-233 | an answer only when every scanner is placed consistently, and then it is the number of distinct beacons; otherwise the error of `align` |
| Y2021Day19.Part2 | 2021/day19/day19.go:236-246 | an answer only when every scanner is placed, and then it is the largest Manhattan distance between two scanner origins; otherwise the error of `align` |
| Y2021Day23.DistMeaning | 2021/day23/day23.go:38-62 | the distance is symmetric, never negative, and is the horizontal gap plus both slot depths; from the hall into a room it is the gap to the room plus the slot |
| Y2021Day23.ValidHallCells | 2021/day23/day23.go:74-77 | the seven stopping cells are hall cells off the room entrances, and every hall cell 1 to 11 off an entrance is among them |
| Y2021Day23.NewAmphipod | 2021/day23/day23.go:85-102 | a new amphipod has the kind and position it is given |
| Y2021Day23.KindsAndRooms | 2021/day23/day23.go:85-102 | A to D go to rooms 3, 5, 7 and 9 at costs 1, 10, 100 and 1000, distinct kinds go to distinct rooms, and any other kind gets room 0 and cost 0 |
| Y2021Day23.Key | 2021/day23/day23.go:120-126 | the key lists every amphipod's position in board order |
| Y2021Day23.SatisfiedRooms | 2021/day23/day23.go:214-230 | a board is satisfied exactly when the room of every amphipod's target holds only amphipods aimed at it |
| Y2021Day23.ValidMove | 2021/day23/day23.go:151-203 | the loop over the other amphipods answers exactly whether the move is allowed |
| Y2021Day23.AllowedMeans | 2021/day23/day23.go:151-203 | an allowed move leaves its cell, never goes hall to hall, never stops at a room entrance, lands on a free cell, passes no amphipod in the hall, starts from the top of its room, enters only its own room, which holds only its own kind, and stops above a full column of its kind |
| Y2021Day23.MoveKeepsWellFormed | 2021/day23/day23.go:205-212 | an allowed move to a stopping cell puts only that amphipod on the new cell, keeps the board well formed, and raises the cost by the amphipod's cost times the distance, which is positive |
| Y2021Day23.RoomMoveDeepest | 2021/day23/day23.go:132-138 | the room search returns the deepest allowed slot of the target room and nothing deeper is allowed; none means no slot is allowed |
| Y2021Day23.RoomMovesAre | 2021/day23/day23.go:131-139 | at most one move into the room: the deepest allowed slot of the target room, none when no slot is allowed, and the result is well formed |
| Y2021Day23.HallMovesAre | 2021/day23/day23.go:140-146 | every hall successor is an allowed move to one of the stopping cells |
| Y2021Day23.HallMovesAll | 2021/day23/day23.go:140-146 | every allowed move to a stopping cell is among the hall successors |
| Y2021Day23.MovesWellFormed | 2021/day23/day23.go:128-149 | every successor of a well-formed board is well formed |
| Y2021Day23.DeepestRoomMove | 2021/day23/day23.go:131-139 | the loop down from the bottom slot computes the room successors |
| Y2021Day23.HallMovesOf | 2021/day23/day23.go:140-146 | the loop over the stopping cells computes the hall successors |
| Y2021Day23.PodMovesOf | 2021/day23/day23.go:130-147 | an amphipod's successors: its room move, if any, followed by its hall moves when it may leave its room |
| Y2021Day23.AddPodMoves | 2021/day23/day23.go:130-147 | one more amphipod's successors are appended in board order |
| Y2021Day23.ValidMoves | 2021/day23/day23.go:128-149 | the successors of every amphipod in board order |
| Y2021Day23.GroupMembers | 2021/day23/day23.go:234-240 | the group of a target holds every amphipod aimed at it and nothing else |
| Y2021Day23.TargetsMeaning | 2021/day23/day23.go:234-240 | the targets listed are exactly the targets some amphipod has, each once |
| Y2021Day23.FilledCount | 2021/day23/day23.go:243-250 | the number of filled slots is at most the number of slots looked at |
| Y2021Day23.AllFilled | 2021/day23/day23.go:243-250 | when every slot is filled the count is the number of slots |
| Y2021Day23.FullCostsNothing | 2021/day23/day23.go:251-253 | a board whose rooms are full of their own kind has estimate zero |
| Y2021Day23.SatisfiedIsFull | 2021/day23/day23.go:214-263 | a satisfied well-formed board whose rooms hold depth amphipods each is full and has estimate zero |
| Y2021Day23.SlotFilled | 2021/day23/day23.go:245-250 | the inner search finds whether some amphipod of the group sits in the slot of its own room |
| Y2021Day23.Unfilled | 2021/day23/day23.go:242-250 | the count of unfilled slots is the depth less the filled slots |
| Y2021Day23.ChargePods | 2021/day23/day23.go:254-260 | the charge loop computes the charge of the group |
| Y2021Day23.RoomEstimate | 2021/day23/day23.go:241-261 | one room's estimate computed by the loops |
| Y2021Day23.GroupPods | 2021/day23/day23.go:234-240 | the grouping loop lists the targets in first-seen order and maps each to its group |
| Y2021Day23.SumRooms | 2021/day23/day23.go:241-262 | the sum over the targets of the per-room estimates |
| Y2021Day23.MinRemainingCost | 2021/day23/day23.go:232-263 | the estimate of the remaining cost |
| Y2021Day23.PathExtend | 2021/day23/day23.go:313-328 | a path followed by a successor of its last board is a path |
| Y2021Day23.NextBucket | 2021/day23/day23.go:299-304 | the first non-empty bucket at or above the priority when one lies at or below 1000000, and none otherwise |
| Y2021Day23.Offer | 2021/day23/day23.go:313-328 | a successor is queued unless its key was seen at no higher priority; every queued board keeps a path, every queued key is in `seen` at no more than its priority, and buckets only grow |
| Y2021Day23.Expand | 2021/day23/day23.go:313-328 | offering every successor keeps the same facts |
| Y2021Day23.Solve | 2021/day23/day23.go:290-335 | an answer is the cost of a satisfied board reached by a path of successors from the initial board; buckets are popped in rising priority, a key is queued again only at a lower priority, and the errors are the priority passing 1000000 or the pop bound running out |
| Y2021Day24.NewInput | 2021/day24/day24.go:27-38 | a negative value is the panic; otherwise the loop yields the low fourteen base-9 digits of the value, each plus one, most significant first |
| Y2021Day24.Int | 2021/day24/day24.go:40-47 | the loop computes the base-9 value of the digits less one |
| Y2021Day24.EncodeDigits | 2021/day24/day24.go:33-36 | every digit `NewInput` writes lies in 1..9 |
| Y2021Day24.EncodeDigitAt | 2021/day24/day24.go:33-36 | entry i of the input is the base-9 digit of weight 9^(13-i) of the value, plus one |
| Y2021Day24.ValueEncode | 2021/day24/day24.go:27-47 | reading an input back gives the value it was made from modulo 9^14 |
| Y2021Day24.RoundTripValue | 2021/day24/day24.go:27-47 | `Int(NewInput(v)) == v` for 0 <= v < 9^14 |
| Y2021Day24.EncodeValue | 2021/day24/day24.go:27-47 | digits in 1..9 have a non-negative value whose encoding is the digits again |
| Y2021Day24.RoundTripInput | 2021/day24/day24.go:27-47 | `NewInput(x.Int()) == x` for every input whose digits lie in 1..9 |
| Y2021Day24.ValueBound | 2021/day24/day24.go:40-47 | n digits in 1..9 have a value in 0..9^n - 1 |
| Y2021Day24.MaybeNegativeRange | 2021/day24/day24.go:69-74 | the range has the same two endpoints, the smaller as its minimum |
| Y2022Day20.ReachLinked | 2022/day20/day20.go:63-75 | on a circle whose links agree with its order, following `next` k times from position i reaches position i + k and following `prev` k times reaches position i − k, both taken round the circle |
| Y2022Day20.Find | 2022/day20/day20.go:63-75 | the loops follow `next` `steps` times, or `prev` `-steps` times when steps is negative, and land on a node |
| Y2022Day20.ValueFromFound | 2022/day20/day20.go:77-83 | the offset found is the first one, going round from the start, whose node holds v; when none is found no node round the circle holds v |
| Y2022Day20.FoundNode | 2022/day20/day20.go:77-83 | a node found by `findValue` holds v |
| Y2022Day20.FoundNodeNone | 2022/day20/day20.go:77-83 | `findValue` finds nothing exactly when no node holds v, which is where the source never returns |
| Y2022Day20.Nodes.FindValue | 2022/day20/day20.go:77-83 | the loop returns the first node holding v going round from start, and nothing after a full turn without one |
| Y2022Day20.Unlink | 2022/day20/day20.go:91-92 | taking x out links its two neighbours to each other in the circle of the others, and x keeps its own links |
| Y2022Day20.DetachedReach | 2022/day20/day20.go:93 | `find` from the detached x, whose links still point into the circle of the others, lands on the (steps − 1) mod (n − 1)-th of them (moving forward) or on the one after it (moving back) |
| Y2022Day20.Insert | 2022/day20/day20.go:94-106 | the four writes put x between two adjacent nodes a and b, and the links then agree with the circle with x spliced in after a |
| Y2022Day20.Relink | 2022/day20/day20.go:85-107 | with a non-zero step, after the unlink `find` lands on the node x goes after (or before), and the relinked links agree with the circle `Mixed(c, x, steps)` |
| Y2022Day20.Nodes.Move | 2022/day20/day20.go:85-107 | the links afterwards agree with the circle `Mixed(old order, x, steps)`, which stays a permutation of the nodes; a zero step changes no link |
| Y2022Day20.MixedPerm | 2022/day20/day20.go:85-107 | a move keeps the circle a permutation of the same nodes |
| Y2022Day20.MixedFromX | 2022/day20/day20.go:85-107 | read from x after a move, the other nodes keep their circular order, now starting (steps − 1) mod (n − 1) + 1 places past x's old successor |
| Y2022Day20.FullTurn | 2022/day20/day20.go:85-107 | moving by a multiple of the number of other nodes puts x back between the same two neighbours |
| Y2022Day20.ReducedSteps | 2022/day20/day20.go:122 | moving by `value % (size - 1)` (Go's truncating remainder) is moving by the value itself whenever that remainder is not zero |
| Y2022Day20.ReadRound | 2022/day20/day20.go:109-116 | the loop reads each node's value once, going round from the start, until the start comes back |
| Y2022Day20.Nodes.ToSlice | 2022/day20/day20.go:109-116 | the values of the circle read from start, one per node, in circle order |
| Y2022Day20.BuildList | 2022/day20/day20.go:141-155 | node i holds ints[i] times the multiplier, and the links run 0, 1, …, n − 1 and back to 0 in both directions |
| Y2022Day20.Nodes.constructor | 2022/day20/day20.go:141-155 | the list is the circle 0, 1, …, n − 1 holding the scaled numbers |
| Y2022Day20.Nodes.MixRound | 2022/day20/day20.go:121-123 | every node in input order moves by its value `% (size - 1)`, giving the circle `MixAll` |
| Y2022Day20.MixAllPerm | 2022/day20/day20.go:121-123 | a round of mixing keeps the circle a permutation of the nodes |
| Y2022Day20.RoundsPerm | 2022/day20/day20.go:132-137 | any number of rounds keeps the circle a permutation of the nodes |
| Y2022Day20.Nodes.SumFrom | 2022/day20/day20.go:159-162 | the three `find`s from the zero node reach the nodes 1000, 2000 and 2000 + last places past it, and their values are summed |
| Y2022Day20.Nodes.Score | 2022/day20/day20.go:157-163 | the score is `Grove` of the circle: an error where `findValue(0)` never returns, else the sum of the three values |
| Y2022Day20.GroveNone | 2022/day20/day20.go:158 | with no node holding 0 the score is the error |
| Y2022Day20.GroveFromZero | 2022/day20/day20.go:157-163 | the score is the sum of the values at offsets 1000, 2000 and 2000 + last, taken round the circle, of the list read from the zero node |
| Y2022Day20.ThirdFindOvershoots | 2022/day20/day20.go:161-162 | as written, the third `find` reads 4000 places past the zero: on a seven-node circle it adds a value other than the 3000th after the zero |
| Y2022Day20.Decrypt | 2022/day20/day20.go:118-139 | the answer of `rounds` rounds on the numbers times the multiplier; an empty list and a single number are the panics of `buildList` and of the division by `size - 1` |
| Y2022Day20.Part1 | 2022/day20/day20.go:118-125 | one round on the numbers as they are, scored as written |
| Y2022Day20.Part2 | 2022/day20/day20.go:127-139 | ten rounds on the numbers times 811589153, scored as written |
| Y2022Day20.Part1Fixed | 2022/day20/day20.go:118-125 | one round, scored on the 1000th, 2000th and 3000th values after the zero |
| Y2022Day20.Part2Fixed | 2022/day20/day20.go:127-139 | ten rounds times 811589153, scored on the 1000th, 2000th and 3000th values after the zero |
| Y2024Day16.TurnRight | 2024/day16/day16.go:40-54 | defined exactly on the four compass facings, where it is the clockwise quarter turn (r, c) to (c, −r); any other facing is the fatal error |
| Y2024Day16.TurnLeft | 2024/day16/day16.go:56-70 | defined exactly on the four compass facings, where it is the anticlockwise quarter turn (r, c) to (−c, r); any other facing is the fatal error |
| Y2024Day16.TurnsInverse | 2024/day16/day16.go:40-70 | a left turn undoes a right turn and a right turn undoes a left turn |
| Y2024Day16.FourRights | 2024/day16/day16.go:40-54 | four right turns return the original facing |
| Y2024Day16.Move | 2024/day16/day16.go:72-74 | the new position differs from the old by the direction's offset |
| Y2024Day16.MoveBack | 2024/day16/day16.go:72-74 | moving by the opposite offset returns to the start |
| Y2024Day16.Possible | 2024/day16/day16.go:81-86 | defined exactly for a compass facing: straight keeps the facing and moves one cell, left and right keep the cell and face opposite ways, both square to the old facing |
| Y2024Day16.PossibleCosts | 2024/day16/day16.go:81-86 | the moves `possible` offers onto open cells are exactly the priced moves, straight at 1 and the two turns at 1000 |
| Y2024Day16.Lookup | 2024/day16/day16.go:168 | a cell is read exactly when the position is inside the lines, otherwise the index panic |
| Y2024Day16.IsOpen | 2024/day16/day16.go:172 | fails exactly where `lookup` does, and is true exactly on an in-grid cell that is not '#' |
| Y2024Day16.IsEnd | 2024/day16/day16.go:170 | fails exactly where `lookup` does, and is true exactly on an 'E' cell |
| Y2024Day16.StepCost | 2024/day16/day16.go:189-198 | every priced move costs 1 or 1000 |
| Y2024Day16.ReachesStep | 2024/day16/day16.go:189-198 | a priced move from a state reached for c reaches its target for c plus the move's price |
| Y2024Day16.ReachesKnown | 2024/day16/day16.go:40-70 | every reached state other than the start faces a compass direction |
| Y2024Day16.MaybeAdd | 2024/day16/day16.go:93-100 | the cost becomes the lower of the two; the parents kept are the old ones when the old cost stays lowest plus the new parent when its cost is lowest, so a lower cost resets them, an equal cost appends and a higher cost is ignored |
| Y2024Day16.MaybeAddKeeps | 2024/day16/day16.go:93-100 | when every old parent and the new one are one priced move back from reached states, so are the parents kept |
| Y2024Day16.AddKeeps | 2024/day16/day16.go:112-129 | the new queue, visited map and provenance keep the solver's invariant: each queued state reached at its bucket's cost, visited costs equal to provenance costs, every parent good |
| Y2024Day16.Solver.constructor | 2024/day16/day16.go:175 | empty queue, visited map and provenance, zero cheapest, highest and end |
| Y2024Day16.Solver.Add | 2024/day16/day16.go:112-129 | a cost below `cheapest` is the fatal error and changes nothing; otherwise prev is merged into v's provenance by `maybeAdd`, and only a new or strictly cheaper v is visited at that cost, appended to its bucket and allowed to raise `highest` |
| Y2024Day16.Solver.SetEnd | 2024/day16/day16.go:186 | only `end` changes |
| Y2024Day16.Solver.Pop | 2024/day16/day16.go:162-166 | an empty bucket is the index panic and changes nothing; otherwise the first state of the bucket is returned and dropped from it, and it was reached at the bucket's cost |
| Y2024Day16.NextCost | 2024/day16/day16.go:178-183 | `cheapest` rises to the first non-empty bucket, every bucket skipped being empty; passing `highest` means every bucket is empty, the "Ran out of priority queue" error |
| Y2024Day16.Expand | 2024/day16/day16.go:189-198 | the three moves keep the solver's invariant and the fact that every (state, cost) added is reachable at that cost, and `cheapest` does not change |
| Y2024Day16.Offer | 2024/day16/day16.go:190-198 | a wall adds nothing; an open cell is added at `cheapest` plus the move's price, keeping every added (state, cost) reachable |
| Y2024Day16.Solve | 2024/day16/day16.go:174-200 | states leave the queue in non-decreasing cost, each reachable from the start at its cost; the answer is the first popped state on an 'E' cell, none before it on one, and it is reachable at the final `cheapest`; running out of queue means every bucket is empty |
| Y2024Day16.StartOf | 2024/day16/day16.go:203-206 | the start is bottom left facing east, or top right facing south when that cell is not 'S'; a grid too small to hold the looked-up cell is the index panic |
| Y2024Day16.Part1 | 2024/day16/day16.go:202-210 | an answer c means some state on an 'E' cell is reachable from the start for exactly c |
| Y2024Day16.AncestorStep | 2024/day16/day16.go:225-228 | a parent of an ancestor of the end is an ancestor |
| Y2024Day16.ClosedHoldsAncestors | 2024/day16/day16.go:219-229 | a set holding the end and closed under parents holds the last state of every parent chain from the end |
| Y2024Day16.Tiles | 2024/day16/day16.go:219-229 | the states marked are exactly the non-zero ancestors of the end through the parent links, and the tiles are their positions; a state without provenance is the nil dereference |
| Y2024Day16.Part2 | 2024/day16/day16.go:212-231 | the answer is the number of distinct positions of the states marked, which are exactly the non-zero ancestors of the end state `solve` found on an 'E' cell, reachable from the start; it counts at least the end's own tile |
| Y2024Day21.DirectionalSound | 2024/day21/day21.go:101-122 | every sequence `dirpad` lists moves the arm over keys only, from the key it is on to the key it is listed for, and then presses that key |
| Y2024Day21.NumericFixedSound | 2024/day21/day21.go:32-99 | with its three faulty entries corrected, every sequence of `numpad` moves the arm over keys only, never over the gap, to the key it is listed for and presses it |
| Y2024Day21.NumericMisses | 2024/day21/day21.go:70-90 | as written, `numpad` lists ">^A" from 5 to 7, which presses 9, "v^A" from 5 to 9, which presses 5, and "vvA" from 8 to 3, which presses 2 |
| Y2024Day21.PressedEndsInA | 2024/day21/day21.go:32-122 | a sequence that presses a key ends with its only 'A' |
| Y2024Day21.OptionsEndInA | 2024/day21/day21.go:32-122 | every sequence of both tables, as written or corrected, is non-empty and ends in 'A' |
| Y2024Day21.LengthAtLeast | 2024/day21/day21.go:146-166 | the length of a sequence at any depth is at least its number of keys |
| Y2024Day21.PressInPlace | 2024/day21/day21.go:146-166 | pressing 'A' with the arm on 'A' is one press at every depth |
| Y2024Day21.ShortcutFrom8 | 2024/day21/day21.go:90 | with the numeric pad alone, the code 83A counts 10 presses with the table as written and 11 with it corrected |
| Y2024Day21.DropA | 2024/day21/day21.go:170 | the result holds no 'A' and is no longer than the code |
| Y2024Day21.DropANone | 2024/day21/day21.go:170 | a code without 'A' is unchanged |
| Y2024Day21.ScoreBound | 2024/day21/day21.go:169-175 | the score fails exactly on a code that is not a number once its 'A's are dropped; otherwise, for a non-negative number, it is at least the code's length times the number |
| Y2024Day21.Solver.constructor | 2024/day21/day21.go:137-144 | the pads are the numeric pad followed by `indirection` directional pads, none for a negative count, and the cache is empty |
| Y2024Day21.Solver.SequenceLength | 2024/day21/day21.go:146-167 | the result is the length of the sequence at that depth (its own length past the last pad, else the sum over its keys of the cheapest option one pad further out, from `math.MaxInt`), whatever the cache held; every cached length stays the true one and no cache entry is lost |
| Y2024Day21.Solver.Score | 2024/day21/day21.go:169-175 | the fatal error for a code that is not numeric without its 'A's, else the length at depth 0 times that number; the cache stays true |
| Y2024Day21.Solve | 2024/day21/day21.go:177-184 | one solver for all lines gives the sum of their scores, or the first failing line's error |
| Y2024Day21.TotalErr | 2024/day21/day21.go:179-182 | once a line fails, the result is that line's error |
| Y2024Day21.Part1 | 2024/day21/day21.go:186-188 | the total with two directional pads, with the table as written |
| Y2024Day21.Part2 | 2024/day21/day21.go:190-192 | the total with twenty-five directional pads, with the table as written |
| Y2024Day21.Part1Fixed | 2024/day21/day21.go:186-188 | the total with two directional pads and the corrected numeric table |
| Y2024Day21.Part2Fixed | 2024/day21/day21.go:190-192 | the total with twenty-five directional pads and the corrected numeric table |
| Y2024Day23.SortedMembers | 2024/day23/day23.go:50-52 | the members of a set as a sequence sorted by string order, each member once, as `slices.Sorted(maps.Keys(s))` |
| Y2024Day23.JoinShape | 2024/day23/day23.go:50-52 | joining names with ',' gives the empty string exactly for no names, and holds a comma exactly when there are two names or more |
| Y2024Day23.JoinInjective | 2024/day23/day23.go:50-52 | two sequences of names that join to the same string are equal |
| Y2024Day23.KeyInjective | 2024/day23/day23.go:50-52 | for sets of names (non-empty, without ','), two sets have the same `tokey` exactly when they are equal |
| Y2024Day23.TwoKeySymmetric | 2024/day23/day23.go:79-81 | `twokey` does not depend on the order of its two arguments |
| Y2024Day23.TwoKeyIsKey | 2024/day23/day23.go:79-81 | for two different computers, `twokey` is the `tokey` of the set of the two |
| Y2024Day23.TwoKeyPair | 2024/day23/day23.go:50-52 | a set of names whose key is a `twokey` of two names has exactly two members |
| Y2024Day23.TwoKeyInjective | 2024/day23/day23.go:79-81 | for names, two connections have the same `twokey` exactly when they join the same two computers |
| Y2024Day23.Intersect | 2024/day23/day23.go:40-48 | the result is the intersection of the two sets |
| Y2024Day23.FullyConnected | 2024/day23/day23.go:83-93 | the result is true exactly when every two different members of the set are connected |
| Y2024Day23.Cut | 2024/day23/day23.go:149 | `strings.Cut` on '-': no result exactly when the line has no '-', else the text before the first '-' and the text after it |
| Y2024Day23.MakeComputers | 2024/day23/day23.go:146-163 | the network `Computers` describes, or the fatal error at the first line without '-' |
| Y2024Day23.ComputersErr | 2024/day23/day23.go:149-152 | building the network fails exactly when some line has no '-' |
| Y2024Day23.ComputersAdj | 2024/day23/day23.go:146-163 | otherwise b is a neighbour of a exactly when some line connects a and b, in either order |
| Y2024Day23.ComputersNonEmpty | 2024/day23/day23.go:153-160 | every computer in the network has at least one neighbour |
| Y2024Day23.ComputersSymmetric | 2024/day23/day23.go:159-160 | b is a neighbour of a exactly when a is a neighbour of b |
| Y2024Day23.ComputersSymmetricAll | 2024/day23/day23.go:159-160 | the network is symmetric |
| Y2024Day23.Part1 | 2024/day23/day23.go:95-110 | the fatal error of a bad line; else the index panic when some computer has the empty name, else the number of different keys `part1` records |
| Y2024Day23.AddSeconds | 2024/day23/day23.go:100-107 | the middle loop records, for the first computer a, the key of every a, b, c with b and c neighbours of a and c a neighbour of b |
| Y2024Day23.AddThirds | 2024/day23/day23.go:101-105 | the inner loop records the key of a, b, c for every neighbour c of b that is a neighbour of a |
| Y2024Day23.TriangleMeaning | 2024/day23/day23.go:95-110 | in a symmetric network without self-connections, a recorded group is exactly a clique of three computers one of which starts with 't' |
| Y2024Day23.TriangleKeysCount | 2024/day23/day23.go:103-109 | for named computers the answer counts the groups: distinct groups have distinct keys |
| Y2024Day23.SetQueue.Add | 2024/day23/day23.go:59-65 | `add` as written: make buckets up to the size of s, setting `biggest` to that size only when buckets are made, and append s to its bucket; the queued sets gain s |
| Y2024Day23.SetQueue.Pop | 2024/day23/day23.go:67-77 | `pop` as written: an index panic on an empty bucket at `biggest`; else take its first set, lower `biggest` past empty buckets, and stop with the fatal error once it falls to 0 |
| Y2024Day23.LonePop | 2024/day23/day23.go:67-77 | queuing only {a, b} and popping it ends in the fatal error, although {a, b} was taken out |
| Y2024Day23.StrandedPop | 2024/day23/day23.go:59-77 | after {a, b, c}, {a} and {b} are queued and {a, b, c} popped, a queued {a, b} is passed over: the next pop gives {a} |
| Y2024Day23.SizeQueue.Add | 2024/day23/day23.go:59-65 | the intended `add`: s is queued in the bucket of its size, and `biggest` becomes the size of s when that is larger |
| Y2024Day23.SizeQueue.Pop | 2024/day23/day23.go:67-77 | the intended `pop`: fails exactly when nothing is queued; otherwise gives a queued set of the largest size and removes it |
| Y2024Day23.SeedSizes | 2024/day23/day23.go:116-126 | the first loop of `part2` queues, once per key, the common neighbours of every connection together with its two ends; for names, every connection's candidate is queued |
| Y2024Day23.SearchSizes | 2024/day23/day23.go:130-143 | the second loop of `part2` on the intended queue gives the key of a clique, of a largest clique for named computers; its only error is the empty queue, which it reaches on the empty network and never on a non-empty named network whose computers all have a neighbour |
| Y2024Day23.Maximal | 2024/day23/day23.go:130-134 | a largest queued set that is a clique is a largest clique |
| Y2024Day23.Covers | 2024/day23/day23.go:116-143 | every clique of two or more computers lies inside a set that is still queued |
| Y2024Day23.QueueNonEmpty | 2024/day23/day23.go:130-131 | while the network has a computer with a neighbour, something is queued |
| Y2024Day23.Part2Fixed | 2024/day23/day23.go:112-144 | `part2` with the intended queue: the error of a bad line; else the key of a largest clique whenever the network is named and not empty, and the empty-queue error on no input |
| Y2024Day23.SeedSets | 2024/day23/day23.go:116-126 | the first loop of `part2` as written queues only non-empty sets of computers and records only keys of sets of computers |
| Y2024Day23.SearchSets | 2024/day23/day23.go:130-143 | the second loop of `part2` as written stops, and an answer is the key of a clique; otherwise the fatal error or the index panic of `pop` |
| Y2024Day23.Part2 | 2024/day23/day23.go:112-144 | `part2` as written: the error of a bad line, else the key of a clique or an error of `pop` |
| Y2025Day10.Xor | 2025/day10/day10.go:86 | a light is lit after `^` exactly when it is lit in one of the two sets and not both |
| Y2025Day10.Fields | 2025/day10/day10.go:39 | `strings.Fields` gives non-empty words holding no space character |
| Y2025Day10.FieldsJoin | 2025/day10/day10.go:39 | splitting space-joined non-empty space-free words gives back the words |
| Y2025Day10.ParseButton | 2025/day10/day10.go:60-70 | `parseButton` sets the bit of each listed index; the fatal error at the first item that is not an integer, and Go's shift panic on a negative one |
| Y2025Day10.ParseMachine | 2025/day10/day10.go:37-58 | `parseMachine`: the lights are the '#' positions inside the brackets, every middle word a button, the last word the joltages; the index or slice panic of a line with too few or too short words, and the fatal errors of the button and joltage items |
| Y2025Day10.ReadLights | 2025/day10/day10.go:41-45 | the loop over the pattern lights exactly the '#' positions |
| Y2025Day10.ReadButtons | 2025/day10/day10.go:46-48 | the loop over the middle words parses each as a button, stopping at the first error |
| Y2025Day10.ReadJoltages | 2025/day10/day10.go:49-56 | the loop over the joltage items reads each as an integer, with the fatal error at the first that is not |
| Y2025Day10.MachineOfText | 2025/day10/day10.go:37-70 | reading the text of a machine (a space-free pattern, non-empty buttons, at least one joltage) gives back its '#' positions, its buttons and its joltages |
| Y2025Day10.Indices | 2025/day10/day10.go:83 | the button positions below n, n of them |
| Y2025Day10.LevelSound | 2025/day10/day10.go:79-93 | every state of round k presses k distinct buttons and shows the exclusive or of exactly those buttons |
| Y2025Day10.LevelComplete | 2025/day10/day10.go:79-93 | every choice of k distinct buttons appears among the states of round k |
| Y2025Day10.NoMatchAtLevel | 2025/day10/day10.go:86-88 | when no state of round k + 1 shows the pattern, no k + 1 distinct buttons light it |
| Y2025Day10.Found | 2025/day10/day10.go:86-88 | a state of round k + 1 showing the pattern gives the fewest presses, k + 1 |
| Y2025Day10.MachinePresses1 | 2025/day10/day10.go:72-94 | `machinePresses1`: 0 for an unlit pattern; otherwise the fewest distinct buttons whose toggles light exactly the pattern, and no answer (the loop never returns) exactly when no set of buttons does |
| Y2025Day10.NextStates | 2025/day10/day10.go:80-91 | one round of the loop returns the fewest presses at the first state that shows the pattern, else builds the next round with none showing it |
| Y2025Day10.ExtendState | 2025/day10/day10.go:82-90 | the inner loop over the buttons of one state stops at a button not yet pressed that completes the pattern, else appends the state with each unpressed button added |
| Y2025Day10.ParseMachines | 2025/day10/day10.go:97-102 | the first loop of `part1` fails exactly when some line does, else parses every line |
| Y2025Day10.SumPresses | 2025/day10/day10.go:103-108 | the second loop of `part1` adds the fewest presses of every machine, and has no answer when some machine cannot be lit |
| Y2025Day10.Part1 | 2025/day10/day10.go:96-110 | `part1` fails exactly when some line does; otherwise the sum of the fewest presses of every machine, or no answer when some machine cannot be lit |
| Y2025Day10Part2.ColSwap | 2025/day10/day10.go:148-155 | the new matrix is the old one with columns a and b exchanged in every row |
| Y2025Day10Part2.Negate | 2025/day10/day10.go:157-165 | the new matrix differs only in row i, which is the old row with every entry negated |
| Y2025Day10Part2.Add | 2025/day10/day10.go:167-175 | the new matrix differs only in row dest, which gains factor times row src entry by entry |
| Y2025Day10Part2.Rightmost | 2025/day10/day10.go:177-184 | the index of the last nonzero entry of a row, and -1 exactly when the row is all zero |
| Y2025Day10Part2.SwapSolves | 2025/day10/day10.go:141-146 | exchanging two rows keeps exactly the same solutions |
| Y2025Day10Part2.NegateSolves | 2025/day10/day10.go:157-165 | negating a row keeps exactly the same solutions |
| Y2025Day10Part2.AddSolves | 2025/day10/day10.go:167-175 | adding a multiple of another row keeps exactly the same solutions |
| Y2025Day10Part2.ColSwapSolves | 2025/day10/day10.go:148-155 | after exchanging two columns x solves the matrix exactly when x with the two entries exchanged solved the old one |
| Y2025Day10Part2.BackSwap | 2025/day10/day10.go:141-146 | every non-negative solution of a matrix after a row swap gives one of the original system with the same total |
| Y2025Day10Part2.BackNegate | 2025/day10/day10.go:157-165 | every non-negative solution after a row negation gives one of the original system with the same total |
| Y2025Day10Part2.BackAdd | 2025/day10/day10.go:167-175 | every non-negative solution after adding a multiple of another row gives one of the original system with the same total |
| Y2025Day10Part2.BackColSwap | 2025/day10/day10.go:148-155 | every non-negative solution after a column exchange gives one of the original system with the same total |
| Y2025Day10Part2.SwapKeeps | 2025/day10/day10.go:274-280 | a row swap at or below the current column keeps the columns already reduced reduced |
| Y2025Day10Part2.NegateKeeps | 2025/day10/day10.go:302-304 | negating the pivot row keeps the columns already reduced reduced |
| Y2025Day10Part2.AddKeeps | 2025/day10/day10.go:305-316 | adding a multiple of the pivot row to another row keeps the columns already reduced reduced |
| Y2025Day10Part2.ColSwapKeeps | 2025/day10/day10.go:281-288 | exchanging two variable columns after the current one keeps the columns already reduced reduced |
| Y2025Day10Part2.SwapUp | 2025/day10/day10.go:274-280 | after the swaps of one pass the pivot is nonzero whenever the column has a nonzero entry at or below it, and it is the smallest such entry in absolute value |
| Y2025Day10Part2.SwapInColumn | 2025/day10/day10.go:281-288 | when the pivot is zero a column with a nonzero entry in the pivot row is exchanged in; otherwise the rest of the row is zero |
| Y2025Day10Part2.ZeroRowUp | 2025/day10/day10.go:289-301 | with a zero column at and below the pivot an all-zero row is moved up and the column counts as reduced |
| Y2025Day10Part2.EliminateRow | 2025/day10/day10.go:309-315 | one elimination step leaves the entry as the truncated remainder of dividing it by the pivot and changes no other row |
| Y2025Day10Part2.Eliminate | 2025/day10/day10.go:302-316 | after making the pivot positive either every other entry of the column is cleared below it or some entry below is smaller than the pivot and the pass restarts |
| Y2025Day10Part2.Reduce | 2025/day10/day10.go:263-320 | `reduce` ends with an echelon matrix whose pivots are non-negative, and every non-negative solution of it gives one of the input system with the same total |
| Y2025Day10Part2.BackFrom | 2025/day10/day10.go:233-261 | the value array keeps its length through a back substitution |
| Y2025Day10Part2.BackSubstitute | 2025/day10/day10.go:233-261 | `backSubstitute` from the bottom row up equals the row-by-row specification, including the index panic |
| Y2025Day10Part2.BackOutcome | 2025/day10/day10.go:233-261 | back substitution fails only by the index panic, and with the corrected row test never fails |
| Y2025Day10Part2.BackHolds | 2025/day10/day10.go:233-261 | with the corrected row test a clean run leaves non-negative values, changes only variables that have a pivot, and makes every row from r on hold |
| Y2025Day10Part2.BackSound | 2025/day10/day10.go:233-261 | with the corrected row test a clean back substitution from non-negative values yields a non-negative solution of the matrix, positive only at used columns when the start was |
| Y2025Day10Part2.AsWrittenAcceptsUnsolvable | 2025/day10/day10.go:242 | on the reduced matrix of rows 1 1 and 0 2, which no values solve, the substitution as written reports a clean total of 2 and the corrected one reports failure |
| Y2025Day10Part2.ExampleInitial | 2025/day10/day10.go:322-352 | the machine `[#] (0) {1,2}` yields the initial matrix whose reduction is that counterexample |
| Y2025Day10Part2.ExampleUnattainable | 2025/day10/day10.go:322-352 | no press counts configure the machine `[#] (0) {1,2}` |
| Y2025Day10Part2.SortByOnesSorted | 2025/day10/day10.go:324-327 | the stable sort of the buttons orders them by non-increasing bit count and is a permutation |
| Y2025Day10Part2.SortRowsSorted | 2025/day10/day10.go:341-352 | the stable row sort orders the rows by weight and then by right-hand side |
| Y2025Day10Part2.SortRows | 2025/day10/day10.go:341-352 | sorting the rows keeps the same rows |
| Y2025Day10Part2.InitialRect | 2025/day10/day10.go:328-340 | the initial matrix has one row per joltage and one column per button plus the right-hand side |
| Y2025Day10Part2.BuildMatrix | 2025/day10/day10.go:328-340 | the filled matrix has a 1 exactly where a button raises a counter, and the joltages in the last column |
| Y2025Day10Part2.DotBuilt | 2025/day10/day10.go:328-340 | a row of the built matrix times the press counts is the counter its joltage names |
| Y2025Day10Part2.UnsortCounter | 2025/day10/day10.go:324-327 | press counts for the sorted buttons rearranged for the original order raise every counter as much |
| Y2025Day10Part2.UnsortSum | 2025/day10/day10.go:324-327 | the rearranged press counts total the same |
| Y2025Day10Part2.UnsortNonneg | 2025/day10/day10.go:324-327 | the rearranged press counts stay non-negative |
| Y2025Day10Part2.TotalBound | 2025/day10/day10.go:322-395 | press counts positive only at buttons that raise some counter total at most the sum of the counters |
| Y2025Day10Part2.CoveredAttainable | 2025/day10/day10.go:322-352 | a non-negative solution of the initial matrix is a set of press counts that configures the machine, with the same total |
| Y2025Day10Part2.CoveredBounded | 2025/day10/day10.go:322-368 | a solution positive only at used columns totals at most the sum of the joltages |
| Y2025Day10Part2.FreeVars | 2025/day10/day10.go:355-360 | the free variables are exactly those past the last row or with a zero diagonal entry |
| Y2025Day10Part2.SumSlice | 2025/day10/day10.go:440-446 | `sumSlice` is the sum of the entries |
| Y2025Day10Part2.SlackInc | 2025/day10/day10.go:195-231 | incrementing a variable lowers a row's slack by the row's factor for it |
| Y2025Day10Part2.SlackOf | 2025/day10/day10.go:205-208 | the slack loop computes the right-hand side less the row times the values |
| Y2025Day10Part2.RowScan | 2025/day10/day10.go:201-219 | the row loop reports whether incrementing the variable brings some row strictly closer to holding, and whether no row with a positive factor has a positive total |
| Y2025Day10Part2.Successors | 2025/day10/day10.go:195-231 | no successors once the values reach the worst total; otherwise the successors are exactly the admitted free variables incremented that were not seen |
| Y2025Day10Part2.Probe | 2025/day10/day10.go:380-388 | a probed successor lowers the best total only to a clean result, and is kept only below both bounds |
| Y2025Day10Part2.Expand | 2025/day10/day10.go:377-389 | one turn keeps every queued value non-negative and zero past the variables, only lowers the best total to clean results, and grows the seen set within a finite box unless nothing is queued |
| Y2025Day10Part2.Search | 2025/day10/day10.go:373-390 | the search ends, with a result at most the starting best, which unless it is the worst total is a clean back-substituted total |
| Y2025Day10Part2.AchievedAttainable | 2025/day10/day10.go:322-394 | with the corrected row test a clean back-substituted total configures the machine with that many presses |
| Y2025Day10Part2.InitialBounded | 2025/day10/day10.go:361-372 | with the corrected row test a clean initial total is at most the sum of the joltages |
| Y2025Day10Part2.MachinePart2 | 2025/day10/day10.go:322-395 | no joltages and more than 13 buttons are index panics; without free variables the result is the initial total or the panic; with the corrected row test the result is at most the sum of the joltages and below it, or without free variables, press counts with that total configure the machine |
| Y2025Day10Part2.SumPart2 | 2025/day10/day10.go:404-412 | the sum over the machines, stopping at a panic; with the corrected row test each term is bounded by its joltages and below them attainable |
| Y2025Day10Part2.Part2 | 2025/day10/day10.go:397-417 | `part2` fails when a line does not parse or a machine panics; otherwise, with the corrected row test, it is a sum of per-machine totals bounded by their joltages and attainable below them |
| Y2025Day10Brute.FlipsAnyShared | 2025/day10/bruteforce.go:39-43 | a button flips some bit of a mask exactly when it has a bit that the mask also has |
| Y2025Day10Brute.FlipTwice | 2025/day10/bruteforce.go:41 | flipping a mask twice with the same button gives back the mask |
| Y2025Day10Brute.BruteParseMachine | 2025/day10/bruteforce.go:72-106 | `bruteParseMachine` fails exactly when the line parser of the faster solution does, with the same message; otherwise it gives the same lights, buttons and joltages, keeps the bracketed pattern, and the '#' positions of that pattern are the lights |
| Y2025Day10Brute.ShapeOfText | 2025/day10/bruteforce.go:72-80 | the text of a machine with a space-free pattern has a first word of at least two characters, and its kept pattern is that pattern |
| Y2025Day10Brute.WorthMeansWrongLight | 2025/day10/bruteforce.go:116 | a button is worth pressing exactly when it toggles a light that differs from the wanted pattern |
| Y2025Day10Brute.PressTwice | 2025/day10/bruteforce.go:118-120 | pressing a button twice restores the lights and adds two to the depth |
| Y2025Day10Brute.FirstIsFewest | 2025/day10/bruteforce.go:122-149 | the first number of presses at which the pattern can be reached is the fewest distinct buttons that light it |
| Y2025Day10Brute.Expand | 2025/day10/bruteforce.go:138-146 | one expansion appends, for each worth-pressing button in order, the pressed state whose lights are not yet seen, records them as seen, and leaves every worth-pressing press of the state seen |
| Y2025Day10Brute.Visit | 2025/day10/bruteforce.go:129-147 | one turn of the queue loop keeps the queue in layers of depth, every state reachable in its depth, each mask seen once, and either grows the seen set or shortens the queue |
| Y2025Day10Brute.NumPressesPart1 | 2025/day10/bruteforce.go:122-149 | `bruteNumPressesPart1` gives the fewest presses that light the pattern, and fails with "Queue empty!" exactly when no presses do; the masks are queued without repetition, starting from all lights off |
| Y2025Day10Brute.BruteParseMachines | 2025/day10/bruteforce.go:317-321 | the parse loop of `brutePart1` fails exactly when some line does, else parses every line |
| Y2025Day10Brute.BruteSumPresses | 2025/day10/bruteforce.go:322-328 | the sum loop fails exactly when some machine cannot be lit, else adds the fewest presses of every machine |
| Y2025Day10Brute.BrutePart1 | 2025/day10/bruteforce.go:316-330 | `brutePart1` fails exactly when some line does not parse or some machine cannot be lit; otherwise it is the sum of the fewest presses of every machine |
| Y2025Day10Brute.FewestAllSolvable | 2025/day10/bruteforce.go:322-328 | fewest counts for every machine make every machine solvable |
| Y2025Day10BruteJoltage.CheckFound | 2025/day10/bruteforce.go:156-163 | `found` holds exactly when every counter with a target is at it |
| Y2025Day10BruteJoltage.ComputePriority | 2025/day10/bruteforce.go:165-171 | the priority loop adds up what every counter still lacks |
| Y2025Day10BruteJoltage.PriorityTotals | 2025/day10/bruteforce.go:165-171 | the priority is the total of the targets less the total of the counters |
| Y2025Day10BruteJoltage.CheckOverflows | 2025/day10/bruteforce.go:173-180 | `overflows` holds exactly when some counter is past its target |
| Y2025Day10BruteJoltage.FoundIffSettled | 2025/day10/bruteforce.go:156-180 | a state is found exactly when its priority is 0 and it does not overflow |
| Y2025Day10BruteJoltage.Press | 2025/day10/bruteforce.go:227-236 | `press` raises by one every counter the button has and adds one to the depth |
| Y2025Day10BruteJoltage.PressedPriority | 2025/day10/bruteforce.go:165-171 | a press lowers the priority by the number of targeted counters the button raises |
| Y2025Day10BruteJoltage.WorthPressing | 2025/day10/bruteforce.go:211-225 | `worthPressing`: the button raises no targeted counter that is already at or past its target, and raises one whose lack is the largest of all counters (and at least 0) |
| Y2025Day10BruteJoltage.WorthPress | 2025/day10/bruteforce.go:211-225 | pressing a button worth pressing strictly lowers the priority and creates no overflow |
| Y2025Day10BruteJoltage.MultiPress | 2025/day10/bruteforce.go:238-250 | `multiPress` gives no list exactly when the button raises no targeted counter and the state does not overflow; otherwise the list of 1, 2, ... presses before the first that overflows |
| Y2025Day10BruteJoltage.IdleNeverOverflows | 2025/day10/bruteforce.go:238-250 | a button that raises no targeted counter never makes a state overflow, however often it is pressed |
| Y2025Day10BruteJoltage.Scale | 2025/day10/bruteforce.go:182-197 | scaling multiplies the depth and every counter by the factor |
| Y2025Day10BruteJoltage.UnboundedNeverOverflows | 2025/day10/bruteforce.go:182-197 | a state whose targeted counters are all zero never overflows when scaled |
| Y2025Day10BruteJoltage.EscapeFactor | 2025/day10/bruteforce.go:182-197 | any other state overflows at some factor of 2 or more |
| Y2025Day10BruteJoltage.Factors | 2025/day10/bruteforce.go:182-197 | `factors` has no answer (the loop never ends) exactly for a pressed state whose targeted counters are all zero, and otherwise returns the empty list |
| Y2025Day10BruteJoltage.Factor | 2025/day10/bruteforce.go:199-209 | `factor` panics with the index error without targets; otherwise it is the truncated quotient of the first target by the first counter when one quotient fits every target exactly, else 0 |
| Y2025Day10BruteJoltage.UniformMultiple | 2025/day10/bruteforce.go:199-209 | every target is q times its non-zero counter exactly when the factor test passes with quotient q |
| Y2025Day10BruteJoltage.ExactTDiv | 2025/day10/bruteforce.go:203-206 | a zero truncated remainder with quotient q means exactly that the dividend is q times the divisor |
| Y2025Day10BruteJoltage.PressValid | 2025/day10/bruteforce.go:302-304 | pressing a worth-pressing button of a state reachable by presses gives a state reachable by presses, still within its targets |
| Y2025Day10BruteJoltage.ValidPriority | 2025/day10/bruteforce.go:165-180 | a state reachable by presses within non-negative targets has a non-negative priority and does not overflow |
| Y2025Day10BruteJoltage.Offer | 2025/day10/bruteforce.go:302-309 | a state whose counters were seen at a depth no smaller is dropped; otherwise it is recorded and queued by its priority, with the index panic when the priority is outside the queue |
| Y2025Day10BruteJoltage.OfferKeeps | 2025/day10/bruteforce.go:302-309 | queuing a new state keeps every queued state reachable and in its priority bucket, and lowers the search measure |
| Y2025Day10BruteJoltage.Explore | 2025/day10/bruteforce.go:288-311 | expanding one state keeps the queue's shape and invariant and does not raise the measure; the index panic happens only for negative targets |
| Y2025Day10BruteJoltage.MinDepth | 2025/day10/bruteforce.go:273-276 | the least depth of a non-empty bucket, attained by one of its states |
| Y2025Day10BruteJoltage.Pass | 2025/day10/bruteforce.go:263-312 | one pass of the outer loop either answers with the least depth in bucket 0 of a reachable state of priority 0, or panics for negative targets, or continues with a smaller measure, or finds nothing left and changes nothing |
| Y2025Day10BruteJoltage.Conclude | 2025/day10/bruteforce.go:272-279 | a reachable state of priority 0 is a set of press counts that configures the machine in that many presses |
| Y2025Day10BruteJoltage.NumPressesPart2 | 2025/day10/bruteforce.go:252-314 | `bruteNumPressesPart2` runs cleanly on non-negative joltages; its only errors are the makeslice error, exactly when the joltages sum below -1, and the index panic; an answer is a number of presses that configures the machine |
| Y2025Day10BruteJoltage.SumPresses2 | 2025/day10/bruteforce.go:339-348 | the sum loop of `brutePart2` runs cleanly when every machine has non-negative joltages, fails only for one that has not, and a sum is of press counts that configure their machines |
| Y2025Day10BruteJoltage.BrutePart2 | 2025/day10/bruteforce.go:332-350 | `brutePart2` runs cleanly when every line parses with non-negative joltages, fails only for a line that does not, and a sum adds press counts that configure each machine |
| Y2025Day12Shapes.CompareOrder | 2025/day12/day12.rb:143-145 | `<=>` orders points by x and then by y; swapping the points negates it, it is zero only for equal points, and any two points are ordered one way or the other |
| Y2025Day12Shapes.LessTransitive | 2025/day12/day12.rb:143-145 | the order of `<=>` is transitive |
| Y2025Day12Shapes.FirstExists | 2025/day12/day12.rb:123 | every non-empty set of points has exactly one least point under `<=>` |
| Y2025Day12Shapes.NeighborsBlock | 2025/day12/day12.rb:151-157 | `neighbors` lists nine different points, the point itself in the middle, and holds exactly the points at most one step away in each direction |
| Y2025Day12Shapes.MirrorXKeeps | 2025/day12/day12.rb:180 | the horizontal flip keeps the shape's number, its number of cells and its 3x3 box |
| Y2025Day12Shapes.RotateKeeps | 2025/day12/day12.rb:182 | the quarter turn keeps the shape's number, its number of cells and its 3x3 box |
| Y2025Day12Shapes.FullTurn | 2025/day12/day12.rb:177-183 | four quarter turns give back the shape |
| Y2025Day12Shapes.FlipTwice | 2025/day12/day12.rb:180 | flipping twice gives back the shape |
| Y2025Day12Shapes.FlipYIsHalfTurn | 2025/day12/day12.rb:180-182 | the vertical flip is the horizontal flip of the half turn |
| Y2025Day12Shapes.TurnFlip | 2025/day12/day12.rb:180-182 | turning a flipped shape is flipping the shape turned three times |
| Y2025Day12Shapes.InsertRound | 2025/day12/day12.rb:177-183 | one round of the `4.times` loop adds the shape, its two flips, and goes on from the turned shape |
| Y2025Day12Shapes.ComputeFamily | 2025/day12/day12.rb:173-186 | the loop of `family` builds the family of the shape |
| Y2025Day12Shapes.InsertAllFacts | 2025/day12/day12.rb:174-183 | adding shapes to a set kept in insertion order keeps it free of repeats, holds exactly the old and the new shapes and starts with the old ones |
| Y2025Day12Shapes.CandidatesAreTwelve | 2025/day12/day12.rb:177-183 | the loop of `family` offers the twelve shapes: each of four turns with its two flips |
| Y2025Day12Shapes.TwelveAreOrientations | 2025/day12/day12.rb:177-183 | those twelve shapes are exactly the turns of the shape and of its flip |
| Y2025Day12Shapes.OrientationsClosed | 2025/day12/day12.rb:177-183 | turning or flipping any of the orientations of a shape gives another of them |
| Y2025Day12Shapes.CandidatesList | 2025/day12/day12.rb:177-183 | the offered shapes are exactly the orientations, the shape itself first |
| Y2025Day12Shapes.FamilyElements | 2025/day12/day12.rb:173-186 | the family starts with the shape, has no repeats, and holds exactly its orientations |
| Y2025Day12Shapes.OrientationsKeep | 2025/day12/day12.rb:180-182 | every orientation keeps the shape's number, its number of cells and its 3x3 box |
| Y2025Day12Shapes.FamilyFacts | 2025/day12/day12.rb:173-186 | the family holds one to eight shapes, the shape first, without repeats; they are exactly the orientations, each with the shape's number, size and box, and turning or flipping a member gives a member |
| Y2025Day12Shapes.CachedAtom.constructor | 2025/day12/day12.rb:163 | a new shape has no cached family |
| Y2025Day12Shapes.CachedAtom.GetFamily | 2025/day12/day12.rb:173-186 | `family` returns the family of the shape and caches it; a cached family is kept as it is |
| Y2025Day12Grid.WallsAre | 2025/day12/day12.rb:206-217 | the walls are exactly the two rows above and below the region, from x = -1 to w, and the two columns left and right of it, from y = -1 to h |
| Y2025Day12Grid.RowStep | 2025/day12/day12.rb:206-211 | one column step of the first wall loop writes its four wall cells |
| Y2025Day12Grid.ColumnStep | 2025/day12/day12.rb:212-217 | one row step of the second wall loop writes its four wall cells |
| Y2025Day12Grid.WallsDone | 2025/day12/day12.rb:206-217 | after both wall loops the cells are the given ones overwritten by walls |
| Y2025Day12Grid.AddWalls | 2025/day12/day12.rb:205-217 | the two wall loops give the cells with the walls written over them |
| Y2025Day12Grid.BlockCells | 2025/day12/day12.rb:248 | the 3x3 block below and right of a point holds nine different cells |
| Y2025Day12Grid.NeighborCells | 2025/day12/day12.rb:253 | the neighbours of a point are nine different cells, the 3x3 block around it |
| Y2025Day12Grid.CountCard | 2025/day12/day12.rb:248 | counting the occupied and the free cells of a list without repeats gives the sizes of those sets |
| Y2025Day12Grid.HasRoomFree | 2025/day12/day12.rb:246-249 | `has_room?` holds exactly for an anchor that leaves its 3x3 block inside the region and at least `needed` free cells in it |
| Y2025Day12Grid.PrunedFacts | 2025/day12/day12.rb:222-232 | the intended pruning (over the new cells' true box, as `minmax_by` would give it) only removes anchors, and removes exactly those within two of that box that lack room for 7; with no new cells nothing is removed; the sweep as written is `PrunedAsWritten` (Findings) |
| Y2025Day12Grid.Bounds | 2025/day12/day12.rb:223-225 | the least and largest x and y of the new cells, the evidently intended reading of the two `minmax` calls; as written they compare by the first cell's own coordinate (`ComparatorMinMax`, Findings) |
| Y2025Day12Grid.NearBox | 2025/day12/day12.rb:226-227 | a point is within two of the new cells' true box exactly when it is in that box grown by two, the range the intended loops sweep |
| Y2025Day12Grid.SweepDone | 2025/day12/day12.rb:226-231 | sweeping the true box grown by two prunes exactly the anchors the intended pruning removes |
| Y2025Day12Grid.PruneOpen | 2025/day12/day12.rb:222-232 | the pruning loops, run over the true box grown by two, give the anchors of the intended pruning |
| Y2025Day12Grid.ComparatorLoIsSecond | 2025/day12/day12.rb:224-225 | as written, when every new cell has a positive coordinate, the least cell the comparator `minmax` returns is the second new cell, whatever the coordinates |
| Y2025Day12Grid.PairMinMax | 2025/day12/day12.rb:224-225 | as written, for the new cells (5, 5) then (6, 5) both calls return (6, 5) as least and (5, 5) as greatest |
| Y2025Day12Grid.MinMaxSweepMisses | 2025/day12/day12.rb:222-232 | on the cells (3, 5), (4, 5), (5, 5), (6, 5), the last two new, the sweep as written keeps the anchor (3, 4), which has six free cells in its block, while the intended pruning drops it |
| Y2025Day12Grid.CopyDone | 2025/day12/day12.rb:196-200 | after the copy loop the cells are the base cells with the new ones added |
| Y2025Day12Grid.Build | 2025/day12/day12.rb:192-234 | a new grid without base is walled around its cells; on a base it raises "Collision" exactly when a new cell is already occupied, and otherwise adds the new cells to the base's cells, count and pruned anchors, the anchors pruned over the new cells' true box (the intended reading, Findings) |
| Y2025Day12Grid.FreshShape | 2025/day12/day12.rb:204-221 | a new grid has its size, counts its given cells, holds them and the walls, every wall cell a wall, the given cells off the walls as given, and anchors inside the region; an empty one has every anchor open and w times h open cells |
| Y2025Day12Grid.ShiftedMembers | 2025/day12/day12.rb:238-239 | a shifted shape holds exactly the cells that shift back into it, as many as the shape |
| Y2025Day12Grid.PlacedDone | 2025/day12/day12.rb:237-242 | after the loop of `merge_with` the new cells are the shape's cells shifted to the anchor |
| Y2025Day12Grid.MergeWith | 2025/day12/day12.rb:236-244 | `merge_with` gives nil when a shifted cell is occupied, else the grid with the placement added and its anchors pruned as `Build` prunes them |
| Y2025Day12Grid.MergeFacts | 2025/day12/day12.rb:236-244 | a merge succeeds exactly when the shifted shape lands on free cells; it then keeps the size and every old cell, marks the shape's cells with its number, counts them, lowers the open size by them, and only drops anchors near them that lack room |
| Y2025Day12Grid.PlacementFacts | 2025/day12/day12.rb:238-241 | the placement covers the shifted cells, as many as the shape's, each with the shape's number |
| Y2025Day12Grid.FitsDisjoint | 2025/day12/day12.rb:240 | a shape that fits occupies no cell the grid holds |
| Y2025Day12Grid.WorthTryingMeans | 2025/day12/day12.rb:251-255 | `worth_trying?` holds exactly for an anchor whose block lies inside the region and between three and eight of whose nine neighbours are occupied |
| Y2025Day12Input.SliceAfterEmpty | 2025/day12/day12.rb:45 | `slice_after(&:empty?)` cuts the lines into chunks that join back into them, each with an empty line only at its end, every one but the last ending in one |
| Y2025Day12Input.SliceAll | 2025/day12/day12.rb:45 | chunks of that form are exactly what their joined lines are cut into |
| Y2025Day12Input.NonEmpty | 2025/day12/day12.rb:46 | `reject &:empty?` keeps exactly the non-empty lines |
| Y2025Day12Input.NonEmptyClosed | 2025/day12/day12.rb:46 | dropping the empty line that closes a chunk gives back its lines |
| Y2025Day12Input.RemoveFirst | 2025/day12/day12.rb:47 | `sub('#', '')` removes the first '#', if any |
| Y2025Day12Input.DigitRun | 2025/day12/day12.rb:47 | the run of digits at the front of a text, ended by a non-digit or the end |
| Y2025Day12Input.ToIString | 2025/day12/day12.rb:47 | `to_i` reads back a written integer followed by a non-digit |
| Y2025Day12Input.HeaderId | 2025/day12/day12.rb:47 | the number read from a header `#<id>:` is the id |
| Y2025Day12Input.AtomOf | 2025/day12/day12.rb:46-51 | a parsed shape has its cells in the 3x3 box |
| Y2025Day12Input.RowsCells | 2025/day12/day12.rb:48-49 | the '#' cells of the three written rows of a shape are its cells |
| Y2025Day12Input.AtomRoundTrip | 2025/day12/day12.rb:46-51 | parsing the written form of a shape in its box gives back the shape |
| Y2025Day12Input.AtomsOf | 2025/day12/day12.rb:46-51 | the shape blocks parse exactly when each does, giving one shape per block in order |
| Y2025Day12Input.AtomChunksRead | 2025/day12/day12.rb:46-51 | the written shapes form closed chunks that parse back to the shapes |
| Y2025Day12Input.WordAt | 2025/day12/day12.rb:56 | the first word of a text is its leading run of non-blank characters |
| Y2025Day12Input.WordsJoin | 2025/day12/day12.rb:56 | `split(' ')` of words joined by single spaces gives back the words |
| Y2025Day12Input.UntilNewline | 2025/day12/day12.rb:53 | the `.*` group stops at a newline, and a text without one is taken whole |
| Y2025Day12Input.MatchText | 2025/day12/day12.rb:53 | the pattern matches a written goal line at its start, with the width, height and counts text as groups |
| Y2025Day12Input.MatchAtParts | 2025/day12/day12.rb:53 | the anchored match of a written goal line gives its width, height and counts text |
| Y2025Day12Input.ToIs | 2025/day12/day12.rb:56 | `map(&:to_i)` reads every word |
| Y2025Day12Input.GoalRoundTrip | 2025/day12/day12.rb:52-58 | parsing the written form of a goal gives back the goal |
| Y2025Day12Input.GoalsOf | 2025/day12/day12.rb:52-58 | the goal lines parse exactly when each does, giving one goal per line in order |
| Y2025Day12Input.GoalLinesRead | 2025/day12/day12.rb:52-58 | the written goals form a chunk that parses back to the goals |
| Y2025Day12Input.SliceFlatten | 2025/day12/day12.rb:45 | the lines of a chunk followed by further chunks are cut into that chunk and those chunks |
| Y2025Day12Input.PuzzleRoundTrip | 2025/day12/day12.rb:44-60 | parsing the written form of a puzzle with boxed shapes and at least one goal gives back the puzzle |
| Y2025Day12.RepeatCount | 2025/day12/day12.rb:65 | `[k] * v` holds k v times and nothing else |
| Y2025Day12.ExpandFromLength | 2025/day12/day12.rb:65 | the expanded list from shape i on is as long as the counts from i on add up |
| Y2025Day12.ExpandFromMembers | 2025/day12/day12.rb:65 | it names only wanted shapes from i on |
| Y2025Day12.ExpandFromCounts | 2025/day12/day12.rb:65 | it names each shape from i on as often as it is wanted |
| Y2025Day12.ExpandedFacts | 2025/day12/day12.rb:65 | the expanded list of a goal is as long as its wanted counts add up, names only wanted shapes, and each as often as wanted |
| Y2025Day12.OrderFacts | 2025/day12/day12.rb:65 | a shuffle of the expanded list has the same length and names, and names a shape with no block exactly when the goal wants one |
| Y2025Day12.SlotForm | 2025/day12/day12.rb:66-75 | the k-th shape of the trivial layout is placed at column 3m and row 3q of the block grid, k = q per row plus m |
| Y2025Day12.SlotsDiffer | 2025/day12/day12.rb:66-75 | different shapes of the trivial layout get different slots |
| Y2025Day12.LayoutSources | 2025/day12/day12.rb:68-75 | every cell of the trivial layout comes from a cell of some placed shape shifted to its slot |
| Y2025Day12.BlocksApart | 2025/day12/day12.rb:66-75 | two cells of the 3x3 box shifted to two slots meet only when the slots are the same |
| Y2025Day12.InPlacement | 2025/day12/day12.rb:69 | every shifted cell of a shape is written with the shape's number |
| Y2025Day12.OutOfPlacement | 2025/day12/day12.rb:69 | a cell that does not shift back into the shape is not written |
| Y2025Day12.PlacementSource | 2025/day12/day12.rb:69 | a written cell shifts back into the shape and holds its number |
| Y2025Day12.LayoutCell | 2025/day12/day12.rb:68-75 | each cell of each placed shape is in the trivial layout, shifted to the shape's slot, with the shape's number |
| Y2025Day12.LayoutKeeps | 2025/day12/day12.rb:68-75 | the trivial layout keeps every cell of every placed shape with its number: no later shape overwrites it |
| Y2025Day12.SlotInside | 2025/day12/day12.rb:64-75 | when no more shapes are placed than there are whole 3x3 blocks, each slot's block lies inside the region |
| Y2025Day12.CellInside | 2025/day12/day12.rb:64-75 | each cell of such a layout lies inside the region |
| Y2025Day12.LayoutInside | 2025/day12/day12.rb:64-75 | all cells of such a layout lie inside the region |
| Y2025Day12.Stamp | 2025/day12/day12.rb:69 | the inner loop writes the shape's cells, shifted, over the cells so far |
| Y2025Day12.LayoutStep | 2025/day12/day12.rb:68-75 | placing one more shape adds its cells at its slot to the layout so far |
| Y2025Day12.SlotStep | 2025/day12/day12.rb:70-74 | the next slot is three to the right, or the start of the next block row when the block would reach past the right edge |
| Y2025Day12.TrivialSolve | 2025/day12/day12.rb:62-77 | `trivial_solve` gives nil exactly when more shapes are wanted than there are whole 3x3 blocks; otherwise it raises exactly when a wanted shape has no block, and else gives the walled grid of the layout of the shuffled shapes |
| Y2025Day12.TrivialFits | 2025/day12/day12.rb:62-77 | the trivial layout lies inside the region and holds every cell of every wanted shape, shifted to its slot, with the shape's number |
| Y2025Day12.SortPoints | 2025/day12/day12.rb:123 | `open.sort` lists exactly the anchors, each once, in increasing order |
| Y2025Day12.FamilyMember | 2025/day12/day12.rb:125 | each member of a family has the shape's number, size and box |
| Y2025Day12.PlaceInside | 2025/day12/day12.rb:124-126 | a boxed shape merged at an anchor whose 3x3 block lies inside the region adds only pieces inside the region |
| Y2025Day12.PlaceFacts | 2025/day12/day12.rb:125-126 | merging a family member keeps the size and every old cell, adds as many cells as the shape has, and only drops anchors |
| Y2025Day12.InBoxInit | 2025/day12/day12.rb:122 | the popped shape and the rest stay in the 3x3 box |
| Y2025Day12.PacksFacts | 2025/day12/day12.rb:114-137 | a packing keeps the size and every old cell, adds as many cells as the packed shapes have, lowers the open size by that many and only drops anchors |
| Y2025Day12.PacksInside | 2025/day12/day12.rb:114-137 | a packing of boxed shapes adds only pieces inside the region |
| Y2025Day12.PackedFits | 2025/day12/day12.rb:109-111 | packing into an empty region holds exactly the shapes' cells, all pieces inside the region, with every wall cell still a wall |
| Y2025Day12.Packer.constructor | 2025/day12/day12.rb:114 | the search starts with the shapes to place and no failed states |
| Y2025Day12.Packer.Recurse | 2025/day12/day12.rb:114-137 | `packed_recurse` returns the grid when no shapes are left; nil when they need more cells than are open, or when the state of the next shape and the occupied cells failed before; a grid it returns packs all the shapes and leaves none; nil puts the shapes back, records the state after the need check, and failed states are never forgotten |
| Y2025Day12.ChosenInBox | 2025/day12/day12.rb:110 | the shapes chosen for the order stay in the 3x3 box |
| Y2025Day12.PackedSolve | 2025/day12/day12.rb:102-112 | `packed_solve` raises exactly when a wanted shape has no block; a grid it returns packs the chosen shapes into the empty region; no wanted shapes gives the empty grid, and shapes with more cells than the region gives nil |
| Y2025Day12.SolveGoal | 2025/day12/day12.rb:31-35 | one goal of `part1` raises exactly when a wanted shape has no block; a goal with few enough shapes is solved by the trivial layout; any other solution is a packing |
| Y2025Day12.CountStep | 2025/day12/day12.rb:28-36 | one more goal adds one to the trivial count exactly when it is trivial |
| Y2025Day12.AnyMissingStep | 2025/day12/day12.rb:28-36 | one more goal wants a missing shape exactly when the earlier ones or it does |
| Y2025Day12.Part1 | 2025/day12/day12.rb:26-37 | `part1` passes on a parse error, raises exactly when some goal wants a shape with no block, and otherwise counts at least the trivial goals and at most all of them |

## Left out

- The shared runners (`lang/go/runner.go`, `2025/runner.rb`) and generators, every `main`, timing and printing: I/O and scaffolding.
- Regular-expression parsing of lines (2020 days 2, 4, 7, 12, 14, 19 and 21): the models start from the parsed records; whether a line matches is not modelled.
- Y2020Day04.Upper: models `uppercase()` for ASCII letters only.
- Common.IsBlank: treats only the ASCII white-space characters as blank.
- Y2020Dec07.Part2: the recursion carries a depth bound of one more than the number of bags that have contents (`|contains.Keys| + 1`); it is exhausted exactly when a cycle is reachable from shiny gold, where the source overflows its stack, and that is `None`.
- Y2020Dec07.Part1 and Y2020Dec07.Part2: the map iteration order of `getParents`/`getChildren` is modelled as insertion order, which does not affect the answers.
- 2020 day 9, `Part1.solve`: rendering the exception as a string is left out; the error is returned as `Err`.
- 2020 day 9: a negative `windowSize` (rejected by `ArrayDeque`) is not modelled; the window size is a `nat`.
- Y2020Day09.Part2: `Part2.solve` is modelled with the corrected rule of `Y2020Day09.FindDistinct`; `Y2020Day09.Find` keeps the source's rule.
- Y2020Dec25.ReverseTransform: the source loops until the subject is reached and never stops when it is not; the model takes a bound on the loop steps and returns `Err` when it is used up.
- 2020 day 25: the 32-bit `Int` of `reverseTransform` and the `toInt()` narrowing are not modelled; values are unbounded.
- Y2020Day15.ResultIsSpoken: for n at most the number of initial numbers, `playToN` does not return the n-th initial number; the model states what it does return and the lemma needs n beyond them.
- 2020 day 15: the `Part1`/`Part2` wrappers (split on ',' and call `playToN` with 2020 and 30000000) are not modelled separately.
- Y2020Dec13.Part2: the source's `Long` arithmetic is unbounded here, so 64-bit overflow of the product or the sum is not modelled.
- Y2020Dec13.Part1: `associateWith` builds a map whose keys are the bus ids; a repeated id collapses to one entry with the same wait, so the list scan gives the same answer and the map is not modelled.
- 2020 day 12, Part2 (the waypoint) and `crowDistance`: they use `atan2`, `cos`, `sin` and rounding on floating point.
- 2020 day 14: masks are modelled as exactly 36 characters, the input's format; shorter or longer masks (a different `toLong(2)` width, negative shift counts) are not modelled, and values and addresses above 2^36 keep only their low 36 bits where the source's `and` drops the rest.
- 2020 day 14, `applyFloatingMask`: `base += …` is modelled as setting the bit, which it equals because each bit position is added at most once.
- 2020 day 16: `trim` and `isBlank` are modelled for the ASCII white-space characters only.
- Y2020Dec16.Part2: the `Long` product is unbounded here, so 64-bit overflow is not modelled.
- Y2020Dec16.Part2: the answer reads each chosen field's assigned position instead of `first()` of its final candidate set; the resolution loop leaves exactly that position in the set.
- Y2020Dec16.Feed: the `forEach` over the field names at the "nearby tickets" header is written as one map update.
- 2020 day 17: the lazy Kotlin `Sequence` of neighbours is a Dafny sequence built in the same order; laziness is not observable in the result.
- 2020 day 18: a digit run is read with `toLong()` on unbounded integers, so a run too long for a `Long` does not fail; sums and products do not overflow.
- 2020 day 19: `linePattern` and its `!!` are not modelled; the model reads (id, definition) pairs.
- Y2020Dec19.Matches: the JVM stack overflow on a left-recursive rule is modelled by a depth bound that returns `Err` when it is used up.
- Y2020Dec19.SplitSpaces and Y2020Dec19.OrPieces: `\s` covers the ASCII white-space characters only.
- Y2020Dec19.OrRoundTrip: requires the first alternative to be a sequence, since a text starting with a quote parses as a `Str` whatever follows.
- 2020 day 20: the `sqrt` of the tile count is not modelled; the grid side is a parameter.
- Y2020Dec20Grid.MakeTile: a ragged grid whose height matches its first row is refused, where the source builds the tile and fails later or not at all.
- Y2020Dec20Corners.BuildIndex: Part 1's lists of tiles per edge are sets, which the `toSet` on the matched ids makes equivalent.
- Y2020Dec20Corners.Part1: the `Long` product is unbounded here, so 64-bit overflow is not modelled.
- Y2020Dec20Search.Search: the `LinkedHashSet` queue and expected-edge sets are sequences without duplicates in insertion order, which is the order the source iterates them in.
- 2020 day 20, `Part2.solve`: building Part 2's edge index and expected directions, choosing the corner to start from, and counting the pixels not covered by a sea monster are not modelled; `Part2.recurse`, `toStitchedTile` and `findMatches` are.
- Y2020Dec20Stitch.Stitch: modelled on the grid's cell values, with the check over `allPoints`; `toStitchedTile` reads the same cells.
- Y2020Dec21.Part1: the ingredient counts and the allergen candidates are gathered in two passes over the lines; the source does both in one pass, and neither depends on the other.
- Y2020Dec21.Part2: `knownIngredients` is computed by the source and never used, so it is not modelled.
- Y2020Dec21.Resolve: the candidate sets are mathematical sets; `candidates.first()` picks their only element, so the iteration order of a `LinkedHashSet` does not matter.
- Y2020Day22.Part1: takes a bound on the number of rounds, because a game of Combat can cycle forever and the source's loop then never ends; running out of rounds is an error.
- Y2020Day22.RecursiveCombat: `nextPrevious` is modelled as a set of past deck contents. The source stores pairs of the live decks, which it mutates later; its hash set keeps each entry's hash from insertion time and then compares the live decks, which always equal themselves, so a lookup succeeds when the current state's hash equals some past state's hash. That is a set of past states up to hash collisions, which are not modelled.
- Y2020Day22.PlayRound: the source's `else -> error("Unknown winner")` branch is proved unreachable and so not modelled as a path; the loop body is a separate method so that its proof stays small.
- Y2020Dec23.Part1 and Y2020Dec23.Part2: require a non-empty line, when it reads as labels, to hold the labels min to min + n − 1 once each, with at least four cups in all and cup 1 among them; for other lines the model promises nothing. What the source does with them: with three cups or fewer the three cups picked up and the current one are all the cups, so the destination loop never ends; without cup 1 the closing search for cup 1 never ends; with a gap in the labels (say "1245") some label between min and max has no node, and a round whose destination is that label throws NoSuchElementException at `nodeIndex.getValue` (for "1245" the first round: 1, then 4, then 3), an exception the model does not turn into an `Err`; with a repeated label the source makes a node for each copy and indexes the later one; for "1123" (cups 1, 1, 2, 3 and a fourth cup 4 from the range above the largest label) every label from 1 to 4 has a node, so it plays the game and prints an answer that the model, whose circle holds each label once, does not compute.
- 2020 day 23: the `ListNode` objects are a map from each label to the label after it, as the source's comment at lines 49-50 suggests; `nodeIndex` becomes the map's key set, and `ListNode.toString` is not modelled.
- 2020 day 23: `solve` maps every input line and joins the answers with newlines; the model answers one line.
- Y2020Dec23.Labels: Kotlin's `toInt` also accepts non-ASCII decimal digits; only '0' to '9' are digits here.
- 2020 day 24: the `Float` coordinates are doubled integers; every delta is a multiple of one half and the sums stay far below the range where `Float` loses precision, so the tiles compared are the same.
- 2020 day 24: the lazy `sequence { }` of directions is read in full; its failure is the failure of `findTile`, and directions yielded before it are not observable.
- 2020 day 24: the answers are integers; `toString` is not modelled.
- Y2020Dec11.Solve: the source loops until the seats settle and never stops if they do not; the model stops with an error after a bound on the number of rounds.
- Y2020Dec11.FromLines: requires all lines to have one width; the source fails on a shorter later line and ignores the extra cells of a longer one.
- Y2020Dec11.Grid.Evolve: the message of the invalid-character exception is reduced to a fixed text, without the grid's `toString`.
- 2020 day 11 `Part1.Grid` and `Part2.Grid` are one class with a rule for the count and the tolerance (4 with adjacent seats, 5 with seats in sight); `main`, timing and the answer's conversion to a string are left out.
- Y2021Day19: parsing the scanner blocks (`runFile`, `Sscanf`), file I/O, timing and the `String` methods are left out; the devices and their 24 orientations are given.
- Y2021Day19.Rotate: the fatal default for an unknown axis name cannot occur, since the axis is a three-valued type.
- Y2021Day19.Rotate: `v * int(dir)` is written as v or -v by direction, which is the same value for the two directions.
- Y2021Day19: Go map iteration order is left open; an element is taken by choice, so `align` and `overlap` are specified by what every order guarantees, not by which placement a particular order finds.
- Y2021Day19.CountBeacons: `all[p]++` keeps a count per beacon that the source never reads; only the set is modelled.
- Y2021Day19.AllOrientations: the 24 orientations are not proved pairwise distinct.
- Y2021Day19.Align: `checked[i]` maps are created lazily in the source; here `checked` is one set of pairs, which gives the same lookups.
- Y2021Day23: `String`, the `printWinner` flag and the `parent` map that prints the winning path are left out; the path is a ghost result instead.
- 2021 day 23: the hard-coded boards, `runPart` and `main` are left out; the initial board is a parameter.
- Y2021Day23.Key: the key is the sequence of positions rather than their text, which distinguishes the same boards.
- Y2021Day23.Dist and the board operations require well-formed boards; the source works on any board but only ever builds well-formed ones.
- Y2021Day23.Solve: a bound on the boards popped stops the search with an error; the source stops only at a winner or at the priority limit.
- Y2021Day23.Solve: Go's map iteration order in `minRemainingCost` does not change the sum; the targets are taken in first-seen order.
- Y2021Day23.Solve: the answer is not proved to be the least cost; the search order and the estimate are modelled, but the estimate is not proved admissible.
- Y2021Day23.MinRemainingCost: the model does not state when the estimate is zero beyond full rooms, nor that it is never negative.
- Y2021Day23.Solve: the `log.Fatalf` messages are shortened to "cost" and "fuel", and the `seenSkipped` counter, which is only logged, is left out.
- 2021 day 24: `searchRange` and `scanRange` (goroutines, channels and cancellation), the generated `Compute_inputactual` that runs the puzzle's program, `main`, and the `String` methods of `Input` and `Range` are left out; only the digit codec and `MaybeNegativeRange` are modelled.
- Y2021Day24.NewInput: the panic's message, which itself formats `NewInput(-val)`, is reduced to a fixed text.
- Y2021Day24.Int: Go's 64-bit `int` is unbounded here; an input with digits far outside 1..9 could overflow in the source.
- 2022 day 20: the `Node` objects and their pointers are the `next` and `prev` sequences of node indices; a link that `buildList` has not set yet (Go's `nil`) is a placeholder index that is overwritten before it is read.
- Y2022Day20.Nodes.FindValue: where no node holds the value the source loops for ever; the model stops after one full turn with nothing, and `score` then returns an error.
- 2022 day 20: Go's 64-bit `int` is unbounded here, so the product by 811589153 and the sum of the score do not overflow.
- 2022 day 20: reading and parsing the input (`Sscanf`), `main`, timing and printing are left out; the numbers are given.
- 2024 day 16: `printgrid`, which `part1` calls, only prints; it is left out, and so is the printing of `part1`'s answer.
- Y2024Day16.Solve: the model stops with an error after `fuel` pops, where the source loops until the end or the fatal error.
- Y2024Day16.Tiles: stops with an error after `fuel` states, where the source's walk back is unbounded.
- Y2024Day16.Part1 and Y2024Day16.Part2: soundness only: the answer is the cost of a real walk to an 'E' cell and the tiles lie on parent chains, but that the cost is the least and that the chains are exactly the cheapest walks is not proved.
- 2024 day 21: the two pad tables are functions of the key the arm is on and the key to press, and the pads of a solver are named by which table they use, rather than Go maps of maps.
- 2024 day 21: `math.MaxInt` is added to the total when a key is missing from a pad's table, which overflows Go's 64-bit `int`; integers are unbounded here.
- 2024 day 21: `len(seq)` counts bytes and `range` reads runes in Go; strings here are sequences of characters, which agree on the ASCII codes of the puzzle.
- Y2024Day21.ScoreBound: `strconv.Atoi` is read as `ParseInt`, an optional sign and decimal digits on unbounded integers; Go's out-of-range error is not modelled.
- 2024 day 23: a `stringset` is a Dafny `set<string>`, and the `seen` maps of booleans are sets of keys; the chaining return values of `add` and `remove` are plain set updates.
- 2024 day 23: Go's map iteration order is left open: every loop over a map or set takes its next element by choice, so every statement holds for any order.
- 2024 day 23: `log.Fatalf` and the index panics become `Err` results ("Invalid input line", "sequeue is empty", "index out of range"); the `%q` and `%v` parts of the messages are dropped, and `main` and the printing are left out.
- Y2024Day23.KeyInjective and the results that rely on it (TriangleKeysCount, Maximal, SearchSizes, Part2Fixed) are stated for networks whose names are non-empty and hold no ',': with other names two different sets can share a key, and what `part2` then reports is only stated to be the key of a clique.
- Y2024Day23.SearchSets and Y2024Day23.Part2: as written, the answer is only stated to be the key of a clique; the as-written queue can pass over larger sets, so no maximality is claimed for it.
- Y2024Day23.SetQueue: after `pop` falls below a bucket, the queue's later behaviour (the fatal error or the stranded sets) is shown on the concrete runs `LonePop` and `StrandedPop`, not characterised in general.
- Y2025Day10.Bits: a Go `uint` button mask is a set of bit positions; the 64-bit width, and with it `1<<i` for counters from 64 on, is not modelled.
- Y2025Day10.MachinePresses1: when no combination of buttons lights the pattern the level lists run dry and Go loops for ever; the model returns `None` there instead of not terminating.
- The machine number `num` and every `log.Printf` of day 10 (logging only), the matrix `String` method, and the `skipped` counter of `part2`, which is never raised, so its `log.Fatalf` cannot run.
- Y2025Day10Part2.MachinePart2: the result is not shown to be the fewest presses. The search prunes with `successors` and the bounds of its queue, and nothing here shows that the pruning keeps an optimum; nor is the "no freevars" panic shown to mean that no presses exist.
- Y2025Day10Part2.MachinePart2: under the row test as written it states only that a result other than the worst total is a clean back-substituted total; the Findings table shows that such a total may configure nothing.
- Y2025Day10Part2.MachinePart2: Go formats the sum, remainder, flag and free variables into the "no freevars" panic; the model keeps only the words "no freevars".
- Y2025Day10Part2.MachinePart2: more than 13 buttons is Go's index panic inside `backSubstitute` on the `[13]int` values; the model reports the same panic straight after `reduce`, before the substitution that would raise it.
- Y2025Day10Part2.Successors: Go visits the free variables in map order, which is unspecified; the model picks them in any order, every contract holds for every order, and results that depend on the order are not pinned down.
- 2025 day 10, the slower first attempt: `button.String`, the `buttonStrings` table and `main` are left out; the machine number `num`, the step counters and every `log.Printf` only log.
- Y2025Day10BruteJoltage.NumPressesPart2: the context timeout and the guess it returns are left out, since they depend on the clock; the model runs without a deadline.
- Y2025Day10BruteJoltage.NumPressesPart2: the answer is not shown to be the fewest presses. The `seen` test keeps a state only when its counters were seen at a smaller depth, and the search answers from the first pass that finds bucket 0 non-empty; nothing here shows that this keeps an optimum. When every bucket is empty Go loops for ever; the model returns `Ok(None)` there.
- Y2025Day10BruteJoltage.Key: the `[10]int` map key copies at most ten counters, so machines with more counters share keys; the model copies the same way and claims nothing that depends on keys being different.
- Y2025Day10BruteJoltage.Factors: as written the loop builds no state to return, so `factors` is the empty list, or runs for ever when no factor ever overflows; the model returns `None` for that endless case and the search never reaches it.
- 2025 day 12: `shuffle` is random; the model takes the shuffled orders as a parameter that only has to be a permutation, and every statement holds for every order.
- 2025 day 12: `simple_solve` is never called (its call is commented out), so it is left out; so are `LOG`, the `to_s` methods of `Point`, `Grid` and `Goal`, and `Grid#eql?` and `hash`, which only print or compare.
- 2025 day 12: the `neighborhood` cache of `Point#neighbors` is not modelled, since it only stores what `neighbors` computes; the family cache is the `CachedAtom` class.
- 2025 day 12: the exception classes and texts of Ruby are reduced to fixed messages ("NoMethodError", "Collision").
- Y2025Day12Input.ToI: `to_i` reads an optional sign and the leading decimal digits; the underscores Ruby also accepts between digits are not modelled.
- Y2025Day12Grid.Bounds: models the evidently intended reading of the two `minmax` calls, the least and largest x and y of the new cells. As written, Ruby calls the one-parameter block as a two-argument comparator that reads only the first cell's coordinate, so the cells returned depend on the order in which the new cells were inserted (`ComparatorMinMax`, Findings). The model keeps a shape's cells as a set, with no insertion order, so every grid is pruned over the true box.
- Y2025Day12Grid.Build: its open anchors are pruned over the new cells' true box grown by two, not over the range the source sweeps, so a grid can lack an open anchor the source keeps (`MinMaxSweepMisses`).
- Y2025Day12Grid.MergeWith: the grid it returns has the anchors of `Build`, so it inherits the same difference from the source.
- Y2025Day12.Packer.Recurse: only soundness is stated. The failure key holds the next shape's number and the occupied cells but not the shapes still to place, so a recorded failure can hide a packing; nil is not claimed to mean that no packing exists. The anchors it tries are those of `Y2025Day12Grid.Build`, so on goals the trivial layout does not solve the grids it returns, and with them the count of `Y2025Day12.Part1`, can differ from the source's.
- Y2025Day12.Part1: the count is bounded below by the trivial goals and above by all of them; which of the other goals are packed depends on the search and the shuffles.
- Y2025Day12.Part2: it returns a fixed greeting, so it has no contract to state.

## Findings

| source | as written | input that shows it | evidently intended | confidence | as-written member | corrected member |
|---|---|---|---|---|---|---|
| 2020/day9/day9.kt:31 | `available.contains(it - x)` also matches when it − x is x itself, so a value equal to twice a window value counts as a sum of two | window size 5, values 1, 2, 4, 8, 16, 32 | 32 is reported, since no two different values of 1, 2, 4, 8, 16 sum to 32 | medium, not executed | Y2020Day09.Find, Y2020Day09.DoubledValueMatches | Y2020Day09.FindDistinct, Y2020Day09.MatchedDistinctMeaning |
| 2020/dec13/dec13.kt:27 | the wait `it - (myTime % it)` is a full period when the bus leaves exactly at the timestamp | timestamp 10, buses 5 and 7 | bus 5 with wait 0, answer 0 (as written: bus 7, wait 4, answer 28) | medium, not executed | Y2020Dec13.Part1, Y2020Dec13.WaitMeaning, Y2020Dec13.DepartureAtArrival | Y2020Dec13.Part1Fixed, Y2020Dec13.WaitFixedMeaning |
| 2020/dec20/dec20.kt:163-175 | `allPoints` is `(0, 0) until (size - 1, size - 1)`, which leaves out the last row and column, so `isUsed` does not see a tile placed there | a 2 by 2 grid with tile 7 at (1, 1): `isUsed(7)` is false | every cell is looked at, so a tile placed anywhere is in use | medium, not executed | Y2020Dec20Grid.UsedAsWrittenMisses | Y2020Dec20Search.Search, Y2020Dec20Search.SearchFound |
| 2022/day20/day20.go:161 | `three := two.find(2000)` starts from the node already 2000 past the zero, so the third number is the 4000th after the zero | the circle 0..6 holding 0, 0, 0, 7, 1, 0, 0 (zero at node 0): the third number read is 7 | the third number is the 3000th after the zero (1 here), as in `one.find(1000)` and `two := one.find(1000)` | medium, not executed | Y2022Day20.Part1, Y2022Day20.Part2, Y2022Day20.ThirdFindOvershoots | Y2022Day20.Part1Fixed, Y2022Day20.Part2Fixed, Y2022Day20.GroveFromZero |
| 2024/day21/day21.go:70-90 | three `numpad` entries do not press their key: from 5 to 7 ">^A" ends on 9, from 5 to 9 "v^A" ends on 5, from 8 to 3 "vvA" ends on 2; the minimum over the options then picks the shorter wrong one | with the numeric pad alone the code 83A counts 10 presses, where pressing 8 then 3 then A needs 11 | each option is a walk over the keys to the key it is listed for ("<^A", ">^A" and "vv>A") | medium, not executed | Y2024Day21.NumericMisses, Y2024Day21.ShortcutFrom8, Y2024Day21.Part1, Y2024Day21.Part2 | Y2024Day21.NumericFixedSound, Y2024Day21.Part1Fixed, Y2024Day21.Part2Fixed |
| 2024/day23/day23.go:67-77 | `pop` lowers `biggest` past empty buckets after taking a set and stops with "sequeue is empty" once it reaches 0, so taking the last queued set is fatal even though that set was taken | the single line "a-b": part 2 queues only {a, b}, and popping it stops the program instead of reporting "a,b" | `pop` returns the set it took and fails only when nothing is queued | medium, not executed | Y2024Day23.SetQueue.Pop, Y2024Day23.LonePop | Y2024Day23.SizeQueue.Pop, Y2024Day23.Part2Fixed |
| 2024/day23/day23.go:59-65 | `add` sets `biggest` only while it appends buckets, so a set added to an existing bucket above `biggest` is passed over by every later `pop` | queue {a, b, c}, {a} and {b}, pop {a, b, c}, queue {a, b}: the next pop gives {a} while {a, b} stays queued | `biggest` rises to the size of every larger set added, so `pop` always gives a largest queued set | medium, not executed | Y2024Day23.SetQueue.Add, Y2024Day23.StrandedPop | Y2024Day23.SizeQueue.Add, Y2024Day23.SizeQueue.Pop, Y2024Day23.SearchSizes |
| 2025/day10/day10.go:242 | the row test `r > m.cols()-1` treats row cols - 1, which has no variable, as a pivot row: its residual is divided by its own right-hand side entry and stored past the variables | the machine `[#] (0) {1,2}`: its rows reduce to 1 1 and 0 2, the second saying 0 = 2, yet the initial substitution is clean with total 2, so part 2 counts 2 for a machine that no presses configure | rows from cols - 1 on have no variable (`r >= m.cols()-1`): the second row is flagged, and with no free variables the machine panics "no freevars" | medium, not executed | Y2025Day10Part2.AsWrittenAcceptsUnsolvable, Y2025Day10Part2.ExampleInitial, Y2025Day10Part2.ExampleUnattainable | Y2025Day10Part2.BackSound, Y2025Day10Part2.AchievedAttainable, Y2025Day10Part2.MachinePart2 |
| 2025/day12/day12.rb:224-225 | `keys.minmax` is given a one-parameter block, which Ruby calls as a two-argument comparator; the block binds only the first cell, so the comparison is the sign of that cell's own x (or y), and the two cells returned depend on the order the new cells were inserted, not on their extremes | a base holding (3, 5) and (4, 5), a merge adding (5, 5) then (6, 5): the calls return (6, 5) and (5, 5), the loops sweep x from 4 to 7, and the anchor (3, 4), left with six free cells, stays open | the least and largest x and y of the new cells, as `minmax_by` gives, so every anchor within two of the new cells is checked and (3, 4) is dropped | medium, not executed | Y2025Day12Grid.ComparatorMinMax, Y2025Day12Grid.PairMinMax, Y2025Day12Grid.ComparatorLoIsSecond, Y2025Day12Grid.MinMaxSweepMisses | Y2025Day12Grid.Bounds, Y2025Day12Grid.PruneOpen, Y2025Day12Grid.PrunedFacts |
