# Advent of Code 2023 solvers, modelled in Dafny

This project models the puzzle solvers of a Kotlin Advent of Code 2023 repository. Each solver becomes one Dafny module in one file. The properties the solvers rely on are proved about that model.

- `common.dfy` (`Common`): an option type, integer helpers, and generic facts about iterating a function (orbits and their periodicity).
- `iterable_ex.dfy` (`IterableEx`): adjacent `differences` and `transpose` of a grid.
- `day01.dfy`: Trebuchet calibration values. Digits are scanned from both ends, and spelled-out digits may overlap.
- `day03.dfy`: engine schematic part numbers and gear ratios.
- `day04.dfy`: scratchcard scoring, and the copy-expansion loop over a growing list.
- `day06.dfy`: winning hold times of the boat race, and the digit concatenation of part 2.
- `day07.dfy`: Camel Cards hand types, joker substitution, hand ordering and rank-weighted bids.
- `day08.dfy`: the left/right walker and its stepping instructions, plus tortoise-and-hare cycle detection. `Walker` and `Strider` are classes with mutable state.
- `day10.dfy`: pipe connectivity, the walk around the loop through the start tile, the loop-only copy of the grid, and the ray-parity inside test.
- `day11.dfy`: cosmic expansion and the sum of Manhattan distances over galaxy pairs.
- `day12.dfy`: hot-spring arrangement counting. The segment recursion is proved equal to the brute-force enumeration through a character-level count.
- `day13.dfy`: mirror-line search with a budget of differences.
- `day14.dfy`: rock rolling in place on arrays, spin cycles, north load, and the cycle shortcut for a billion spins.
- `day16.dfy`: beam propagation through mirrors and splitters as a worklist search.
- `day17.dfy`: crucible movement rules and Dijkstra's least heat loss.
- `day18.dfy`: dig-plan decoding, the outer-corner walk and the shoelace area.
- `day19.dfy` and `rating_sums.dfy` (`RatingSums`): workflow evaluation, workflow simplification, and counting the accepted rating combinations with truth-array subranges.
- `day20.dfy`: the pulse machine.
  - `Module` is a class whose flip-flop state, conjunction memory and receiver latch change in place.
  - Pulses are handled first in, first out.
- `day21.dfy`: the garden frontier after a number of steps.
- `day22.dfy`: brick settling over a height field (`array2`), the support relation, and the chain-reaction count by breadth-first search.
- `day23.dfy`: junction and edge extraction by breadth-first search, and the longest simple hike.

Where the source loops or mutates, the model is a method proved against a pure specification function. Examples are Day01's index scans, Day04's growing list, Day14's in-place rolling, and the searches of Days 16, 17, 20, 22 and 23. The properties are then proved about that function.

A Kotlin exception is mostly modelled as an error result (`None`, `Fails` or `IndexError`). Examples are a missing map key, an index out of range, and `toInt` on a bad number. A few inputs on which the source throws are instead excluded by a precondition, and each is listed under "Left out": a grid row shorter than the first for `IterableEx.Transpose` and the grids of Days 11, 13 and 14 that it transposes, a line without a digit or digit word for Day01, an empty destination list for `Day08.Strider` and a cycle without an arrival for `Day08.CreateStrider`, a cell other than `O`, `#` and `.` or a short row for Day14, an empty brick list for Day22, and a map outside `Day23.WellFormed`. Loops that end only on well-formed input carry a `fuel` bound and report running out. Those loops are the workflow jumps of Day19, the pulse queue of Day20, and the walk of Day08 part 1.

## Model

| member | source | states |
|---|---|---|
| IterableEx.Differences | src/IterableEx.kt:6-8 | one element fewer than the input (none for an empty list), element i is `a[i+1] - a[i]` |
| IterableEx.DifferencesTelescope | src/IterableEx.kt:8 | the differences sum to the last element minus the first |
| IterableEx.IntegrateDifferences | src/IterableEx.kt:8 | the first element and the differences rebuild the list: nothing but the first element is lost |
| IterableEx.Transpose | src/IterableEx.kt:30-38 | one row per index of the first row, each as long as the grid, `t[i][j] == grid[j][i]`; the empty grid gives the empty list |
| IterableEx.TransposeTwice | src/IterableEx.kt:30-38 | transposing a rectangular grid with a row and a column twice gives it back |
| IterableEx.TransposeOfEmptyRows | src/IterableEx.kt:38 | a grid of empty rows transposes to the empty list, so the round trip needs a column |
| Day01.DigitValue | src/main/kotlin/io/ysakhno/adventofcode2023/day01/Day01.kt:80 | `digitToInt` of an ASCII digit is at most 9 |
| Day01.FirstDigit | src/main/kotlin/io/ysakhno/adventofcode2023/day01/Day01.kt:73-75 | the first scan stops at a digit with no digit before it |
| Day01.LastDigit | src/main/kotlin/io/ysakhno/adventofcode2023/day01/Day01.kt:76-78 | the backward scan stops at a digit with no digit after it |
| Day01.SimpleValue | src/main/kotlin/io/ysakhno/adventofcode2023/day01/Day01.kt:80 | a calibration value is a two-digit number, at most 99 |
| Day01.CalibrationValueSimple | src/main/kotlin/io/ysakhno/adventofcode2023/day01/Day01.kt:69-81 | the two index-walking loops compute ten times the first digit plus the last digit |
| Day01.FirstDigitAt | src/main/kotlin/io/ysakhno/adventofcode2023/day01/Day01.kt:73-75 | any digit with no digit before it is the one the first scan finds |
| Day01.LastDigitAt | src/main/kotlin/io/ysakhno/adventofcode2023/day01/Day01.kt:76-78 | any digit with no digit after it is the one the backward scan finds |
| Day01.SingleDigitLine | src/main/kotlin/io/ysakhno/adventofcode2023/day01/Day01.kt:69-81 | a line with a single digit d has value 11·d (the digit is both first and last) |
| Day01.SimpleExamples | src/main/kotlin/io/ysakhno/adventofcode2023/day01/Day01.kt:26-34 | the puzzle's example lines `1abc2` and `treb7uchet` give 12 and 77 |
| Day01.TokensShape | src/main/kotlin/io/ysakhno/adventofcode2023/day01/Day01.kt:83-102 | the table of spellings has 18 non-empty entries, each worth 1..9 |
| Day01.IndexFrom | src/main/kotlin/io/ysakhno/adventofcode2023/day01/Day01.kt:106 | `indexOf` from a start position: an occurrence at or after it with none between, or -1 when there is none |
| Day01.IndexOf | src/main/kotlin/io/ysakhno/adventofcode2023/day01/Day01.kt:106 | `indexOf`: the leftmost occurrence, or -1 when there is none |
| Day01.LastIndexUpTo | src/main/kotlin/io/ysakhno/adventofcode2023/day01/Day01.kt:111 | `lastIndexOf` up to a position: an occurrence at or before it with none between, or -1 |
| Day01.LastIndexOf | src/main/kotlin/io/ysakhno/adventofcode2023/day01/Day01.kt:111 | `lastIndexOf`: the rightmost occurrence, or -1 when there is none |
| Day01.Found | src/main/kotlin/io/ysakhno/adventofcode2023/day01/Day01.kt:105-107 | the `filter { idx >= 0 }`: exactly the (position, digit) pairs of the tokens that occur |
| Day01.MinByPosition | src/main/kotlin/io/ysakhno/adventofcode2023/day01/Day01.kt:108 | `minBy`: a found pair whose position is the smallest |
| Day01.MaxByPosition | src/main/kotlin/io/ysakhno/adventofcode2023/day01/Day01.kt:113 | `maxBy`: a found pair whose position is the largest |
| Day01.TokensAreDigitTokens | src/main/kotlin/io/ysakhno/adventofcode2023/day01/Day01.kt:83-102 | the table maps each of the digits and each spelled name to its value |
| Day01.FirstPositions | src/main/kotlin/io/ysakhno/adventofcode2023/day01/Day01.kt:106 | one `indexOf` per table entry, in table order |
| Day01.LastPositions | src/main/kotlin/io/ysakhno/adventofcode2023/day01/Day01.kt:111 | one `lastIndexOf` per table entry, in table order |
| Day01.FoundBothWays | src/main/kotlin/io/ysakhno/adventofcode2023/day01/Day01.kt:105-114 | a token occurs from the left exactly when it occurs from the right, so both searches find something |
| Day01.FirstTokenDigit | src/main/kotlin/io/ysakhno/adventofcode2023/day01/Day01.kt:105-109 | the first digit is the value of a token occurring at the leftmost position any token occurs at |
| Day01.LastTokenDigit | src/main/kotlin/io/ysakhno/adventofcode2023/day01/Day01.kt:110-114 | the last digit is the value of a token occurring at the rightmost position any token occurs at |
| Day01.ComplexValue | src/main/kotlin/io/ysakhno/adventofcode2023/day01/Day01.kt:104-117 | the value is ten times the leftmost token's digit plus the rightmost token's digit, between 11 and 99 |
| Day01.FirstIsLeftmost | src/main/kotlin/io/ysakhno/adventofcode2023/day01/Day01.kt:105-109 | the pair `minBy` picks names a token at the leftmost occurrence position |
| Day01.LastIsRightmost | src/main/kotlin/io/ysakhno/adventofcode2023/day01/Day01.kt:110-114 | the pair `maxBy` picks names a token at the rightmost occurrence position |
| Day01.NonBlank | src/main/kotlin/io/ysakhno/adventofcode2023/day01/Day01.kt:120 | `filterNot(isBlank)` keeps exactly the non-blank lines |
| Day01.SumComplex | src/main/kotlin/io/ysakhno/adventofcode2023/day01/Day01.kt:123 | the sum over n lines of part-2 values lies between 11·n and 99·n |
| Day01.Part1 | src/main/kotlin/io/ysakhno/adventofcode2023/day01/Day01.kt:119-120 | the part-1 answer lies between 0 and 99 per non-blank line |
| Day01.Part2 | src/main/kotlin/io/ysakhno/adventofcode2023/day01/Day01.kt:122-123 | the part-2 answer lies between 11 and 99 per non-blank line |
| Day01.SumSimpleBounds | src/main/kotlin/io/ysakhno/adventofcode2023/day01/Day01.kt:120 | the part-1 sum over n lines lies between 0 and 99·n |
| Day03.NewEngine | src/Day03.kt:73-81 | the engine is built exactly when every character is a symbol, a digit or `.`, and it keeps the lines |
| Day03.RunEnd | src/Day03.kt:59 | a run of digits extends to the first non-digit or the end of the line |
| Day03.RunsFrom | src/Day03.kt:85 | every match of `\\d+` from a position lies within the line after it |
| Day03.Runs | src/Day03.kt:85 | every match of `\\d+` lies within the line |
| Day03.RunsFromAreDigitRuns | src/Day03.kt:85 | each match is a maximal run of digits |
| Day03.RunsFromApart | src/Day03.kt:85 | the matches are in order and separated by a non-digit |
| Day03.RunsFromCover | src/Day03.kt:85 | every digit belongs to some match |
| Day03.RunsMaximal | src/Day03.kt:85 | `findAll` yields the maximal digit runs, in order, covering every digit |
| Day03.NeighbourRowScan | src/Day03.kt:112-121 | scanning the clipped substring of the row above or below finds a symbol exactly when that row of the frame around the number holds one |
| Day03.OwnRowCheck | src/Day03.kt:123-124 | the two side checks find a symbol exactly when the number's own row of the frame holds one |
| Day03.FrameByRows | src/Day03.kt:106-125 | a symbol in the frame is a symbol in one of its three rows |
| Day03.PartNumberCheckMeaning | src/Day03.kt:106-125 | it holds exactly when a symbol touches the number, even diagonally; it fails (index error) only when a neighbour row is too short for the substring |
| Day03.ScanForSymbol | src/Day03.kt:113-115 | the for loop returns true exactly when the span holds a symbol |
| Day03.IsPartNumber | src/Day03.kt:106-125 | the method with its early returns computes the part-number check |
| Day03.StarsBetweenExact | src/Day03.kt:135-137 | a scan of a row records exactly the `*` cells of the span |
| Day03.StarsBetweenOrdered | src/Day03.kt:135-137 | the recorded `*` cells are in left-to-right order |
| Day03.RowStarsExact | src/Day03.kt:134-143 | the stars found in the row above or below are exactly the `*` cells of that row of the frame |
| Day03.SideStarsExact | src/Day03.kt:145-146 | the side checks find exactly the `*` cells beside the number, and two of them are different |
| Day03.RowStarsOnce | src/Day03.kt:134-143 | a row scan lists each star once |
| Day03.GearListOnce | src/Day03.kt:127-149 | `findGears` lists each star once |
| Day03.GearListExact | src/Day03.kt:127-149 | `findGears` returns exactly the `*` cells of the frame around the number, each once |
| Day03.GearMakesPartNumber | src/Day03.kt:106-149 | a number with a `*` beside it passes the part-number check |
| Day03.CollectStars | src/Day03.kt:134-143 | the scan loop appends the row's stars to the list |
| Day03.FindGears | src/Day03.kt:127-149 | the method with its loops and appends computes the list of stars in the frame |
| Day03.PartNumbersInTouched | src/Day03.kt:83-86 | on a rectangular schematic the part numbers of a line are the values of the runs a symbol touches |
| Day03.PartNumbersAreTouched | src/Day03.kt:83-86 | on a rectangular schematic `partNumbers` is the list of numbers a symbol touches, line by line |
| Day03.Part1Sums | src/Day03.kt:153 | the part-1 answer fails on an invalid character, and otherwise on a rectangular schematic is the sum of the numbers a symbol touches |
| Day03.Tagged | src/Day03.kt:97 | each attached gear is paired with the part's number |
| Day03.Keys | src/Day03.kt:98 | the keys of `groupBy`: every gear location that occurs, each once |
| Day03.TwoNumberKeys | src/Day03.kt:100 | the `filter { it.size == 2 }`: exactly the keys with two numbers |
| Day03.GearsOfPairsUp | src/Day03.kt:96-104 | each gear holds the two numbers grouped under one two-number location, in order |
| Day03.TwoNumberKeysDistinct | src/Day03.kt:98-100 | the kept locations are distinct |
| Day03.NumbersAtEmpty | src/Day03.kt:98 | a location has no numbers exactly when no pair names it |
| Day03.GearsAreTwoNumberLocations | src/Day03.kt:96-104 | `gears` has one entry per distinct location with exactly two numbers, holding those two numbers |
| Day03.NumbersAtSingle | src/Day03.kt:97 | a part lists its number under a location once when it is attached there, and not otherwise |
| Day03.NumbersAtAppend | src/Day03.kt:97-98 | grouping distributes over concatenation of the pair list |
| Day03.NumbersAtParts | src/Day03.kt:97-98 | the numbers grouped under a location are the parts attached to it, in order |
| Day03.Ratios | src/Day03.kt:68-71 | each ratio is the product of the gear's two numbers |
| Day03.Part2 | src/Day03.kt:155 | the part-2 answer exists exactly when the schematic holds only valid characters |
| Day03.PartsInDistinctGears | src/Day03.kt:88-94 | a part's attached gears are distinct |
| Day03.PartsFromDistinctGears | src/Day03.kt:88-94 | every part of the schematic has distinct attached gears |
| Day03.GearsOfSchematic | src/Day03.kt:88-104 | the numbers grouped under a gear location are the part numbers whose frame holds that `*` |
| Day04.Intersection | src/Day04.kt:79 | a number is in the intersection exactly when it is both drawn and winning |
| Day04.NumCardsWon | src/Day04.kt:81 | the number of matches is at most the number of winning and of drawn numbers |
| Day04.Points | src/Day04.kt:83-84 | a card scores 0 exactly when it has no match, and 2^(matches-1) otherwise |
| Day04.PointsDouble | src/Day04.kt:83-84 | one more match doubles the score of a card that already scores |
| Day04.PointsExample | src/Day04.kt:83-84 | card 1 of the puzzle's example (four matches) scores 8 |
| Day04.TotalPoints | src/Day04.kt:95-96 | no cards score nothing |
| Day04.TotalPointsZero | src/Day04.kt:95-96 | the total is 0 exactly when no card has a match |
| Day04.SplitOnce | src/Day04.kt:88-89 | `split(c, limit = 2)` fails (no second part) exactly when `c` does not occur; otherwise the text is the part before the first `c`, the `c` and the rest |
| Day04.LeadingWhitespace | src/Day04.kt:90 | the leading whitespace of a word is whitespace and stops at the first other character |
| Day04.TrailingWhitespace | src/Day04.kt:90 | the trailing whitespace of a word is whitespace and stops at the last other character |
| Day04.Trim | src/Day04.kt:90 | the trimmed word neither starts nor ends with whitespace and keeps every other character |
| Day04.Words | src/Day04.kt:90 | `split(' ')` then dropping empty pieces leaves non-empty words without spaces |
| Day04.WordsFrom | src/Day04.kt:90 | the words collected from a position are non-empty and hold no space |
| Day04.Keep | src/Day04.kt:90 | `filter(String::isNotEmpty)` keeps a piece exactly when it is not empty |
| Day04.ParseInt | src/Day04.kt:90 | `toInt` succeeds only within the 32-bit range, and gives a digit string's decimal value when that fits |
| Day04.ParseNumbers | src/Day04.kt:90 | the set exists exactly when every word converts, and it holds exactly the converted values |
| Day04.ParseScratchcard | src/Day04.kt:87-92 | a parsed card keeps its index and its name is the text before the first ':', followed by text holding '|'; a line without ':' is an error |
| Day04.WinEnd | src/Day04.kt:104-107 | the copies card k wins end after k and never past the last card (`min(..., input.size)`) |
| Day04.Instances | src/Day04.kt:102-110 | one instance of a card ends up as at least itself |
| Day04.InstancesIn | src/Day04.kt:102-110 | a range of cards ends up as at least as many cards as it holds |
| Day04.InstancesInBound | src/Day04.kt:112 | the final count is at least the number of original cards |
| Day04.FromInputAppend | src/Day04.kt:109 | appending copies of input cards to a pile of input cards keeps a pile of input cards |
| Day04.FromInputRange | src/Day04.kt:104-107 | a `subList` of the input cards consists of input cards with their own indices |
| Day04.QueueInstances | src/Day04.kt:102-110 | every card still in the queue stands for at least one card of the final pile |
| Day04.QueueInstancesAppend | src/Day04.kt:109 | what the queue stands for adds up over appended parts |
| Day04.QueueOfRange | src/Day04.kt:99 | the initial pile stands for exactly the instances of all original cards |
| Day04.QueueInstancesAt | src/Day04.kt:103 | taking the next card from the queue splits off that card's instances |
| Day04.ProcessCard | src/Day04.kt:103-109 | processing one card and appending its copies lowers what the rest of the queue stands for by exactly one |
| Day04.AppendFromInput | src/Day04.kt:109 | `addAll` of a `subList` keeps the pile made of input cards and leaves its front unchanged |
| Day04.CountScratchcards | src/Day04.kt:98-113 | the final pile size is the total number of instances of the original cards, at least the number of cards |
| Day06.CountBeatingBelow | src/Day06.kt:85-87 | among the first k hold times at most k beat the record |
| Day06.ComputeDistance | src/Day06.kt:85-87 | at most the `timeAllowed + 1` hold times of `0..timeAllowed` beat the record, none for an empty range |
| Day06.CountIsCardinality | src/Day06.kt:87 | `count` is the number of hold times whose distance beats the record |
| Day06.BeatsSymmetric | src/Day06.kt:86 | holding for t and for `timeAllowed - t` go equally far |
| Day06.EndsNeverWin | src/Day06.kt:86 | holding for 0 or for the whole race goes nowhere, so it never beats a record |
| Day06.WinnersContiguous | src/Day06.kt:86-87 | the winning hold times form one interval |
| Day06.ProductOfWays | src/Day06.kt:90-94 | `reduce` fails exactly on a sheet without races |
| Day06.ProductOfWaysStep | src/Day06.kt:94 | each further race multiplies the product by its count |
| Day06.UnwinnableRaceZeroes | src/Day06.kt:94 | one race that cannot be won makes the product 0 |
| Day06.SubstringAfterColon | src/Day06.kt:96 | `substringAfter(':')` is the whole line without a ':', else the text after the first ':' |
| Day06.RemoveSpaces | src/Day06.kt:97 | `replace(" ", "")` leaves no space and never lengthens the line |
| Day06.RemoveSpacesAppend | src/Day06.kt:97 | removing spaces works piece by piece |
| Day06.RemoveSpacesKeepsDigits | src/Day06.kt:97 | a digit string has no space to remove |
| Day06.DecimalValueConcat | src/Day06.kt:98 | the value of two digit strings written together is the first shifted by the second's length plus the second |
| Day06.KerningJoinsNumbers | src/Day06.kt:96-98 | two numbers separated by a space read as one number once the spaces go |
| Day06.ParseLong | src/Day06.kt:98 | `toLong` succeeds only within the 64-bit range, gives a digit string's decimal value when that fits, and fails on the empty string and on text that neither starts with a sign nor is all digits |
| Day06.ParseLongPlus | src/Day06.kt:98 | a '+' before a digit string keeps its value, failing only above the 64-bit range |
| Day06.ParseLongMinus | src/Day06.kt:98 | a '-' before a digit string negates its value, failing only below the 64-bit range |
| Day06.KerningFreeNumber | src/Day06.kt:96-98 | a line whose text after the colon, without spaces, is a digit string that fits in 64 bits reads as that number; nothing left means failure; any number read is within the 64-bit range |
| Day06.SingleRaceWays | src/Day06.kt:96-99 | the single long race has a count exactly when both lines read as numbers, and it is `computeDistance` of the two; a negative time gives no way to win |
| Day06.Examples | src/Day06.kt:103 | the first race of the puzzle's example (7 ms, record 9) can be won in 4 ways |
| Day07.Rank | src/main/kotlin/io/ysakhno/adventofcode2023/day07/Day07.kt:96-101 | each card's rank lies in 1..14 and only the joker has rank 1 |
| Day07.RankInjective | src/main/kotlin/io/ysakhno/adventofcode2023/day07/Day07.kt:96-101 | two cards have the same rank exactly when they are the same card |
| Day07.CardOf | src/main/kotlin/io/ysakhno/adventofcode2023/day07/Day07.kt:118 | a label character maps to a card only if that card carries that label |
| Day07.CardOfLabel | src/main/kotlin/io/ysakhno/adventofcode2023/day07/Day07.kt:118 | every card is found again from its own label |
| Day07.Ordinal | src/main/kotlin/io/ysakhno/adventofcode2023/day07/Day07.kt:120-122 | the seven hand types are ordered 0..6, strongest first |
| Day07.Distinct | src/main/kotlin/io/ysakhno/adventofcode2023/day07/Day07.kt:134 | the groups of `groupBy` are the cards of the hand, each exactly once |
| Day07.Sizes | src/main/kotlin/io/ysakhno/adventofcode2023/day07/Day07.kt:134 | there is one group size per distinct card |
| Day07.CountsOf | src/main/kotlin/io/ysakhno/adventofcode2023/day07/Day07.kt:134 | each group size is the number of times its card occurs in the hand |
| Day07.DetermineHandType | src/main/kotlin/io/ysakhno/adventofcode2023/day07/Day07.kt:132-133 | a type is produced exactly for hands of five cards; other sizes fail the `require` |
| Day07.SizesAreMultiplicities | src/main/kotlin/io/ysakhno/adventofcode2023/day07/Day07.kt:134-138 | a size k >= 1 appears among the group sizes exactly when some card occurs k times |
| Day07.SizesCountPairs | src/main/kotlin/io/ysakhno/adventofcode2023/day07/Day07.kt:139 | the number of groups of size 2 is the number of cards that occur exactly twice |
| Day07.CountsMatching | src/main/kotlin/io/ysakhno/adventofcode2023/day07/Day07.kt:139 | counting sizes equal to 2 counts the distinct cards that occur twice |
| Day07.PairedStep | src/main/kotlin/io/ysakhno/adventofcode2023/day07/Day07.kt:139 | adding one more distinct card adds one pair exactly when that card occurs twice |
| Day07.HandTypeByMultiplicities | src/main/kotlin/io/ysakhno/adventofcode2023/day07/Day07.kt:135-144 | the type of a five-card hand is decided by its card multiplicities in the order five, four, three (full house with a pair), two pairs, one pair, high card |
| Day07.CountOfConstant | src/main/kotlin/io/ysakhno/adventofcode2023/day07/Day07.kt:134 | a hand made of one card only holds that card as many times as it is long |
| Day07.FiveEqualCards | src/main/kotlin/io/ysakhno/adventofcode2023/day07/Day07.kt:136 | five equal cards are a five of a kind |
| Day07.SameAsLoop | src/main/kotlin/io/ysakhno/adventofcode2023/day07/Day07.kt:147-155 | the loop returns true exactly when every position holds equal cards or a joker on either side |
| Day07.SameAsReflexive | src/main/kotlin/io/ysakhno/adventofcode2023/day07/Day07.kt:147-155 | every list matches itself |
| Day07.SameAsSymmetric | src/main/kotlin/io/ysakhno/adventofcode2023/day07/Day07.kt:147-155 | matching does not depend on the order of the two lists |
| Day07.Substitutes | src/main/kotlin/io/ysakhno/adventofcode2023/day07/Day07.kt:104 | the substitute cards contain neither the joker nor J |
| Day07.SubstitutesComplete | src/main/kotlin/io/ysakhno/adventofcode2023/day07/Day07.kt:104 | every card other than the joker and J is a substitute |
| Day07.AllHands | src/main/kotlin/io/ysakhno/adventofcode2023/day07/Day07.kt:103-116 | every generated hand has the requested length and holds no joker and no J |
| Day07.PrependEach | src/main/kotlin/io/ysakhno/adventofcode2023/day07/Day07.kt:105-110 | extending every hand by one leading substitute keeps them joker-free and one longer |
| Day07.PrefixAll | src/main/kotlin/io/ysakhno/adventofcode2023/day07/Day07.kt:105-110 | prefixing with one card puts that card in front of each hand, in order |
| Day07.AllHandsComplete | src/main/kotlin/io/ysakhno/adventofcode2023/day07/Day07.kt:103-116 | every joker-free hand of the right length is among the generated hands |
| Day07.PrependEachHas | src/main/kotlin/io/ysakhno/adventofcode2023/day07/Day07.kt:105-110 | a substitute followed by a generated hand is among the extended hands |
| Day07.StrongestMatch | src/main/kotlin/io/ysakhno/adventofcode2023/day07/Day07.kt:158 | `minOf` gives nothing exactly when no hand matches; otherwise it is the type of a matching hand and no matching hand is stronger |
| Day07.JokerHandType | src/main/kotlin/io/ysakhno/adventofcode2023/day07/Day07.kt:157-158 | a five-card hand with jokers and no plain J gets the type of some joker-free hand it matches |
| Day07.JokerHandTypeIsStrongest | src/main/kotlin/io/ysakhno/adventofcode2023/day07/Day07.kt:157-158 | no joker-free hand it matches has a stronger type than the one chosen |
| Day07.JokerWithPlainJ | src/main/kotlin/io/ysakhno/adventofcode2023/day07/Day07.kt:157-158 | a plain J matches no substitute hand, so `minOf` has nothing to choose from and fails |
| Day07.MakeHand | src/main/kotlin/io/ysakhno/adventofcode2023/day07/Day07.kt:124-125 | a hand is built exactly when its type can be computed, and keeps its cards, its bid and that type |
| Day07.FirstRankDifferenceAntisymmetric | src/main/kotlin/io/ysakhno/adventofcode2023/day07/Day07.kt:129 | the first rank difference changes sign when the hands are swapped |
| Day07.FirstRankDifferenceZero | src/main/kotlin/io/ysakhno/adventofcode2023/day07/Day07.kt:129 | for equal-length card lists the difference is 0 exactly when the lists are equal |
| Day07.FirstRankDifferenceDecides | src/main/kotlin/io/ysakhno/adventofcode2023/day07/Day07.kt:129 | the first position where the cards differ decides, as the rank of the second minus the rank of the first |
| Day07.CompareAntisymmetric | src/main/kotlin/io/ysakhno/adventofcode2023/day07/Day07.kt:127-129 | comparing b with a gives the negated result of comparing a with b |
| Day07.CompareStrongerTypeFirst | src/main/kotlin/io/ysakhno/adventofcode2023/day07/Day07.kt:128 | a hand of stronger type sorts first |
| Day07.CompareSameType | src/main/kotlin/io/ysakhno/adventofcode2023/day07/Day07.kt:129 | between hands of the same type, the one whose first differing card ranks higher sorts first |
| Day07.CompareZero | src/main/kotlin/io/ysakhno/adventofcode2023/day07/Day07.kt:127-129 | two hands compare equal exactly when they have the same type and the same cards |
| Day07.JokerIsWeakest | src/main/kotlin/io/ysakhno/adventofcode2023/day07/Day07.kt:100 | the joker ranks below every other card, the two included |
| Day07.Insert | src/main/kotlin/io/ysakhno/adventofcode2023/day07/Day07.kt:160 | inserting into a sorted list gives a sorted list one longer holding the same hands plus the new one |
| Day07.SortHands | src/main/kotlin/io/ysakhno/adventofcode2023/day07/Day07.kt:160 | `sorted()` returns a permutation of its input ordered by `compareTo` |
| Day07.RankedWeakestFirst | src/main/kotlin/io/ysakhno/adventofcode2023/day07/Day07.kt:160-161 | after `reversed()` each hand is at most as strong as the next, so rank 1 is the weakest |
| Day07.WeightedEqualBids | src/main/kotlin/io/ysakhno/adventofcode2023/day07/Day07.kt:162-163 | with every bid equal to b the weighted sum is b times 1 + ... + n |
| Day07.ParseCards | src/main/kotlin/io/ysakhno/adventofcode2023/day07/Day07.kt:166-171 | a parsed hand has one card per character, and in part 2 it holds no plain J |
| Day07.Labels | src/main/kotlin/io/ysakhno/adventofcode2023/day07/Day07.kt:96-101 | writing out a hand gives one label per card |
| Day07.ParseLabels | src/main/kotlin/io/ysakhno/adventofcode2023/day07/Day07.kt:166 | reading back the labels of a hand gives the hand |
| Day07.ParseHands | src/main/kotlin/io/ysakhno/adventofcode2023/day07/Day07.kt:165-173 | the parsed hands keep their count and each its bid, with the type computed from its cards |
| Day08.SuccessorsIn | src/main/kotlin/io/ysakhno/adventofcode2023/day08/Day08.kt:94-97 | in a closed map every described node has a non-empty name and both its successors are described |
| Day08.Next | src/main/kotlin/io/ysakhno/adventofcode2023/day08/Day08.kt:96-97 | `L` takes the left successor and any other step the right one |
| Day08.StepAtPeriodic | src/main/kotlin/io/ysakhno/adventofcode2023/day08/Day08.kt:99-100 | the instruction list repeats with its own length as the period |
| Day08.AfterSucc | src/main/kotlin/io/ysakhno/adventofcode2023/day08/Day08.kt:109-111 | walking k + 1 steps is walking k steps and then one more |
| Day08.AfterAdd | src/main/kotlin/io/ysakhno/adventofcode2023/day08/Day08.kt:109-111 | walking a + k steps is walking a steps and then k from where that ends |
| Day08.PhaseIsRemainder | src/main/kotlin/io/ysakhno/adventofcode2023/day08/Day08.kt:113 | the tracked instruction phase is the step count modulo the instruction length |
| Day08.StepFromPhase | src/main/kotlin/io/ysakhno/adventofcode2023/day08/Day08.kt:109-111 | one step from a node and its phase goes to the successor chosen by the instruction, with the next phase |
| Day08.Walker.constructor | src/main/kotlin/io/ysakhno/adventofcode2023/day08/Day08.kt:144-149 | a walker starts at the given node with no steps taken |
| Day08.Walker.IsArrived | src/main/kotlin/io/ysakhno/adventofcode2023/day08/Day08.kt:150 | a walker has arrived exactly when its node's name starts with `Z` |
| Day08.Walker.Advance | src/main/kotlin/io/ysakhno/adventofcode2023/day08/Day08.kt:152-154 | advancing follows the instruction at the step count to the next node and counts one step |
| Day08.Walker.Copy | src/main/kotlin/io/ysakhno/adventofcode2023/day08/Day08.kt:175 | `copy()` gives a new walker in the same position |
| Day08.ShiftEqual | src/main/kotlin/io/ysakhno/adventofcode2023/day08/Day08.kt:108-114 | two step counts that reach the same state keep doing so for any number of further steps |
| Day08.PeriodicFrom | src/main/kotlin/io/ysakhno/adventofcode2023/day08/Day08.kt:116-124 | once the walk returns after lam steps from step m, it repeats every multiple of lam from there on |
| Day08.RecurringAfterMeeting | src/main/kotlin/io/ysakhno/adventofcode2023/day08/Day08.kt:108-114 | where tortoise and hare meet after nu steps, any recurring state comes back after 2 * nu more steps |
| Day08.MeetingExists | src/main/kotlin/io/ysakhno/adventofcode2023/day08/Day08.kt:108-114 | if the walk enters a cycle, the hare (two steps at a time) meets the tortoise at some step t >= 1 |
| Day08.AtNext | src/main/kotlin/io/ysakhno/adventofcode2023/day08/Day08.kt:109-111 | a walker that is at a node at step idx is at that node's successor at step idx + 1 |
| Day08.AtSame | src/main/kotlin/io/ysakhno/adventofcode2023/day08/Day08.kt:113 | the same node with the same phase is exactly the same state of the walk |
| Day08.Move | src/main/kotlin/io/ysakhno/adventofcode2023/day08/Day08.kt:109 | one move follows the instruction at the current index and keeps the walker on the walk |
| Day08.MeetInCycle | src/main/kotlin/io/ysakhno/adventofcode2023/day08/Day08.kt:103-114 | the first loop stops with the hare at an even step count 2t where the state equals the tortoise's after t steps |
| Day08.FindCycleStart | src/main/kotlin/io/ysakhno/adventofcode2023/day08/Day08.kt:102-127 | `findCycleStart` returns the first step count from which the walk repeats |
| Day08.FirstReturnIsCycleStart | src/main/kotlin/io/ysakhno/adventofcode2023/day08/Day08.kt:116-126 | the first step at which tortoise and hare meet in the second loop is where the cycle begins |
| Day08.FindCycleLength | src/main/kotlin/io/ysakhno/adventofcode2023/day08/Day08.kt:129-142 | `findCycleLength` returns the least positive number of steps after which the walker is back in the same node and phase |
| Day08.Arrivals | src/main/kotlin/io/ysakhno/adventofcode2023/day08/Day08.kt:176-178 | the destination indices are, in increasing order, exactly the step counts below the cycle length at which the walker stands on a `Z` node |
| Day08.Strider.constructor | src/main/kotlin/io/ysakhno/adventofcode2023/day08/Day08.kt:157-161 | a strider starts at position 0 and needs at least one destination |
| Day08.Strider.AdvanceBy | src/main/kotlin/io/ysakhno/adventofcode2023/day08/Day08.kt:168-171 | advancing adds the steps and takes Kotlin's remainder by the cycle length |
| Day08.KotlinRem | src/main/kotlin/io/ysakhno/adventofcode2023/day08/Day08.kt:170 | Kotlin's `%` keeps the sign of the dividend and stays below the divisor in magnitude |
| Day08.AdvanceKeepsPosition | src/main/kotlin/io/ysakhno/adventofcode2023/day08/Day08.kt:168-171 | from a position inside the cycle a non-negative advance stays inside it, as the ordinary remainder |
| Day08.CreateStrider | src/main/kotlin/io/ysakhno/adventofcode2023/day08/Day08.kt:174-181 | `createStrider` records exactly the arrival indices within one cycle and the cycle length |
| Day08.Part1 | src/main/kotlin/io/ysakhno/adventofcode2023/day08/Day08.kt:183-205 | the loop of part 1 ends as the walk from `AAA` does: reaching `ZZZ`, failing on an unknown node or instruction, or running out of fuel |
| Day08.WalkFollowsNext | src/main/kotlin/io/ysakhno/adventofcode2023/day08/Day08.kt:192-204 | on a closed map with only `L`/`R` instructions the walk never fails, and when it reaches `ZZZ` its step count is the first step at which the walk stands on `ZZZ` |
| Day08.SecondExampleTakesSix | src/main/kotlin/io/ysakhno/adventofcode2023/day08/Day08.kt:192-204 | the second example map reaches `ZZZ` in six steps |
| Day10.VerticalConnections | src/Day10.kt:251 | a tile has 0, 1 or 2 vertical connections: 2 exactly for `|` and the start, 1 exactly when it connects up or down but not both |
| Day10.ToPipe | src/Day10.kt:253 | a character maps to the tile with that symbol, and fails exactly when no tile has it |
| Day10.ToPipeSymbol | src/Day10.kt:253 | every tile is read back from its own symbol |
| Day10.ParseRow | src/Day10.kt:390 | a row is read character by character into tiles with those symbols, failing exactly on an unknown character |
| Day10.ParseArea | src/Day10.kt:390 | the area has one parsed row per line and fails exactly when some line fails |
| Day10.IndexOfStart | src/Day10.kt:262 | `indexOf(START)` gives the first start in a row, or -1 when there is none |
| Day10.StartPosFrom | src/Day10.kt:259-265 | scanning from a row on finds a start tile with no start before it in reading order, or there is none in those rows |
| Day10.StartPos | src/Day10.kt:259-265 | the start position is the first start tile in reading order; it is missing exactly when the area has no start (the error) |
| Day10.Neighbours | src/Day10.kt:324-340 | every connected point found lies inside the area |
| Day10.NeighboursAround | src/Day10.kt:324-340 | at most four connected points, each adjacent to the tile, none twice and none ground |
| Day10.NeighboursExact | src/Day10.kt:324-340 | a point is connected exactly when it is inside the area and the two tiles connect toward each other |
| Day10.NeighboursSymmetric | src/Day10.kt:324-340 | connection is mutual: if q is connected from p then p is connected from q |
| Day10.NeighboursAsWrittenAgrees | src/Day10.kt:324-340 | on a rectangular area, whenever the guards as written do not read off the grid, they find the same points as the corrected bounds |
| Day10.CornerStartFallsOff | src/Day10.kt:327-330 | a start in the bottom-right corner makes the right-hand guard read past the row end, where the corrected guard finds the two loop neighbours |
| Day10.FirstCandidate | src/Day10.kt:372 | `firstOrNull` picks an unvisited non-ground candidate, the first one if that qualifies, and gives nothing only when every candidate is visited or ground |
| Day10.InCells | src/Day10.kt:363-384 | every point inside the area is among its cells, which bounds the walk |
| Day10.FindLoopedPipe | src/Day10.kt:363-384 | the loop fails only when there is no start, and otherwise returns the walk from the start |
| Day10.StepsAppend | src/Day10.kt:379-380 | extending the walk by a connected step keeps every non-start point joined to the one before it |
| Day10.WalkAdvance | src/Day10.kt:369-380 | moving to an unvisited connected point keeps the loop invariant: visited points are the start and the pipe so far |
| Day10.WalkFinish | src/Day10.kt:374-376 | when no candidate remains the pipe has the loop shape, and appending the start when it is a candidate keeps that shape |
| Day10.WalkOnExtends | src/Day10.kt:369-381 | the walk only appends: the returned pipe starts with the pipe it was given |
| Day10.WalkOnShape | src/Day10.kt:369-381 | the returned pipe has no repeated point, holds the start at most at its end, and joins each point to the one before it |
| Day10.LoopedPipeShape | src/Day10.kt:363-384 | `findLoopedPipe` returns a pipe of that shape |
| Day10.LoopedPipeFirst | src/Day10.kt:371-372 | the pipe begins with the start's first connected point |
| Day10.LoopedPipeCloses | src/Day10.kt:375 | when the pipe ends with the start, the point before it is joined to the start |
| Day10.StartNeighbour | src/Day10.kt:375 | with a single start tile, a point that has a start among its connected points is joined to that start |
| Day10.Part1 | src/Day10.kt:387 | part 1 is half the length of the looped pipe, and fails exactly on an unreadable area or a missing start |
| Day10.StartShapeJoins | src/Day10.kt:295-306 | the tile put in place of the start connects toward a side exactly when one of its two loop neighbours lies there, and is not the start |
| Day10.UpRightStartMisread | src/Day10.kt:299-306 | for loop neighbours above and to the right of the start the rules as written pick `7`, which connects to neither; the intended tile is `L` |
| Day10.Blank | src/Day10.kt:284-290 | a blank row has the requested width and holds only ground |
| Day10.BlankGrid | src/Day10.kt:284-290 | the blank grid has the requested height and every row blank |
| Day10.Painted | src/Day10.kt:283-312 | the painted copy has the area's height and width |
| Day10.LastIndexBelow | src/Day10.kt:292-293 | the last index below k at which the pipe visits a point, or none |
| Day10.PaintedCell | src/Day10.kt:292-309 | each cell of the copy is ground unless the pipe visits it, and then holds the tile written by the last visit |
| Day10.CopyWithPipe | src/Day10.kt:283-312 | `copyWithPipe` builds the painted copy |
| Day10.Scan | src/Day10.kt:344-358 | an open bend, if any, lies in the scanned columns |
| Day10.IsInside | src/Day10.kt:342-361 | a tile is inside exactly when the scan to its right counts an odd number of crossings |
| Day10.ScanParity | src/Day10.kt:347-358 | the crossings counted (plus an open bend that connects up) have the parity of the number of tiles that connect upward |
| Day10.InsideByUps | src/Day10.kt:342-361 | when no bend is left open, a tile is inside exactly when an odd number of tiles to its right connect upward |
| Day10.CountEnclosed | src/Day10.kt:394-400 | the nested loops count exactly the ground tiles found inside, row by row |
| Day10.Part2 | src/Day10.kt:389-405 | part 2 counts the enclosed ground tiles of the loop-only copy, and fails only on an unreadable area, a missing start or a pipe outside the first row's width |
| Day11.ManhattanDistance | src/main/kotlin/io/ysakhno/adventofcode2023/day11/Day11.kt:129 | the distance is never negative and is zero exactly for the same galaxy |
| Day11.ManhattanSymmetric | src/main/kotlin/io/ysakhno/adventofcode2023/day11/Day11.kt:129 | the distance does not depend on the order of the two galaxies |
| Day11.ManhattanTriangle | src/main/kotlin/io/ysakhno/adventofcode2023/day11/Day11.kt:129 | going through a third galaxy is never shorter |
| Day11.Repeat | src/main/kotlin/io/ysakhno/adventofcode2023/day11/Day11.kt:136 | `List(n) { x }` holds n copies of x |
| Day11.ExpandSeq | src/main/kotlin/io/ysakhno/adventofcode2023/day11/Day11.kt:138-140 | expanding no lines gives no lines |
| Day11.NewIndex | src/main/kotlin/io/ysakhno/adventofcode2023/day11/Day11.kt:138-140 | with a factor of at least 1 no line moves backwards |
| Day11.CountTrue | src/main/kotlin/io/ysakhno/adventofcode2023/day11/Day11.kt:138-140 | no more lines are empty than there are lines |
| Day11.NewIndexFormula | src/main/kotlin/io/ysakhno/adventofcode2023/day11/Day11.kt:135-141 | line i lands at i plus factor - 1 for every empty line before it |
| Day11.ExpandSeqLength | src/main/kotlin/io/ysakhno/adventofcode2023/day11/Day11.kt:138-140 | the expanded image is as long as the landing index past the last line |
| Day11.NewIndexStep | src/main/kotlin/io/ysakhno/adventofcode2023/day11/Day11.kt:138-140 | the first line takes factor places when empty and one place otherwise |
| Day11.ExpandSeqKeeps | src/main/kotlin/io/ysakhno/adventofcode2023/day11/Day11.kt:138-140 | every non-empty line is found unchanged at its landing index |
| Day11.ExpandSeqOrigin | src/main/kotlin/io/ysakhno/adventofcode2023/day11/Day11.kt:138-140 | every line of the expanded image is a fill line or one of the original non-empty lines |
| Day11.ExpandSeqAppend | src/main/kotlin/io/ysakhno/adventofcode2023/day11/Day11.kt:138-140 | expanding two blocks of lines one after the other is expanding their concatenation |
| Day11.EmptyFlags | src/main/kotlin/io/ysakhno/adventofcode2023/day11/Day11.kt:138-140 | a line is flagged exactly when it is all dots |
| Day11.ExpandedRowsAre | src/main/kotlin/io/ysakhno/adventofcode2023/day11/Day11.kt:135-141 | every row of the expanded image is a row of dots or a non-empty row of the column-expanded image |
| Day11.ColumnsCoverFirst | src/main/kotlin/io/ysakhno/adventofcode2023/day11/Day11.kt:137-139 | after expanding the columns every column still has one cell per row, so the transpose back is defined |
| Day11.Positions | src/main/kotlin/io/ysakhno/adventofcode2023/day11/Day11.kt:146 | the columns found in a row lie within that row |
| Day11.PositionsMember | src/main/kotlin/io/ysakhno/adventofcode2023/day11/Day11.kt:146 | a column is listed exactly when it lies in the row and holds `#` |
| Day11.RowGalaxies | src/main/kotlin/io/ysakhno/adventofcode2023/day11/Day11.kt:146 | each listed column becomes a galaxy in that row, in order |
| Day11.RowGalaxiesMembers | src/main/kotlin/io/ysakhno/adventofcode2023/day11/Day11.kt:146 | the galaxies of a row are exactly the `#` cells of that row |
| Day11.GalaxyMember | src/main/kotlin/io/ysakhno/adventofcode2023/day11/Day11.kt:144-147 | a point is a galaxy of the rows from y0 on exactly when it is a `#` cell there |
| Day11.GalaxiesAreHashes | src/main/kotlin/io/ysakhno/adventofcode2023/day11/Day11.kt:144-147 | the galaxies are exactly the `#` cells of the image |
| Day11.PositionsAppend | src/main/kotlin/io/ysakhno/adventofcode2023/day11/Day11.kt:146 | the `#` columns of two joined pieces of row are those of the first followed by those of the second, shifted |
| Day11.PositionsOfDots | src/main/kotlin/io/ysakhno/adventofcode2023/day11/Day11.kt:146 | a row of dots has no galaxy |
| Day11.ShiftStep | src/main/kotlin/io/ysakhno/adventofcode2023/day11/Day11.kt:138-140 | moving past the first line shifts every later position by that line's width |
| Day11.ExpandFirstCell | src/main/kotlin/io/ysakhno/adventofcode2023/day11/Day11.kt:140 | an empty first column holds no galaxy after expansion, a kept one keeps its galaxy |
| Day11.ExpandRowPositions | src/main/kotlin/io/ysakhno/adventofcode2023/day11/Day11.kt:137-140 | the `#` columns of an expanded row are those of the row moved to their landing columns |
| Day11.ExpandLaterCells | src/main/kotlin/io/ysakhno/adventofcode2023/day11/Day11.kt:137-140 | the same holds for the rest of a row after its first cell |
| Day11.GalaxiesFromAppend | src/main/kotlin/io/ysakhno/adventofcode2023/day11/Day11.kt:145 | the galaxies of two blocks of rows are those of the first followed by those of the second, shifted down |
| Day11.GalaxiesOfEmptyRows | src/main/kotlin/io/ysakhno/adventofcode2023/day11/Day11.kt:140 | inserted rows of dots hold no galaxy |
| Day11.GalaxyRowsBounded | src/main/kotlin/io/ysakhno/adventofcode2023/day11/Day11.kt:145 | every galaxy lies in one of the scanned rows |
| Day11.MoveRowStep | src/main/kotlin/io/ysakhno/adventofcode2023/day11/Day11.kt:140 | moving past the first row shifts every later galaxy by that row's height |
| Day11.ExpandFirstRow | src/main/kotlin/io/ysakhno/adventofcode2023/day11/Day11.kt:140 | an empty first row holds no galaxy after expansion, a kept one keeps its galaxies |
| Day11.ExpandRowsGalaxies | src/main/kotlin/io/ysakhno/adventofcode2023/day11/Day11.kt:140 | expanding the rows moves each galaxy to its landing row, in reading order |
| Day11.ExpandLaterRows | src/main/kotlin/io/ysakhno/adventofcode2023/day11/Day11.kt:140 | the same holds for the rows after the first |
| Day11.MoveRowGalaxies | src/main/kotlin/io/ysakhno/adventofcode2023/day11/Day11.kt:146 | moving the galaxies of one row sideways moves their columns |
| Day11.ExpandColumnsGalaxies | src/main/kotlin/io/ysakhno/adventofcode2023/day11/Day11.kt:137-139 | expanding the columns moves each galaxy to its landing column, in reading order |
| Day11.MapExpansion | src/main/kotlin/io/ysakhno/adventofcode2023/day11/Day11.kt:138-140 | renaming lines commutes with expanding them |
| Day11.ExpandColumnsRows | src/main/kotlin/io/ysakhno/adventofcode2023/day11/Day11.kt:137-139 | transposing, expanding and transposing back expands the empty columns of every row |
| Day11.ExpandKeepsEmptiness | src/main/kotlin/io/ysakhno/adventofcode2023/day11/Day11.kt:140 | expanding the empty columns of a row leaves it all dots exactly when it was |
| Day11.ExpandMovesGalaxies | src/main/kotlin/io/ysakhno/adventofcode2023/day11/Day11.kt:135-147 | `expand` moves every galaxy, in reading order, to its landing column and landing row |
| Day11.ComposeMoves | src/main/kotlin/io/ysakhno/adventofcode2023/day11/Day11.kt:135-147 | expanding the rows after the columns relocates the galaxies in both coordinates |
| Day11.EmptyColumnsAreDots | src/main/kotlin/io/ysakhno/adventofcode2023/day11/Day11.kt:138 | a flagged column holds a dot in every row |
| Day11.ExpandColumnsKeepEmptyRows | src/main/kotlin/io/ysakhno/adventofcode2023/day11/Day11.kt:139-140 | expanding the columns does not change which rows are empty |
| Day11.SameEmptyRows | src/main/kotlin/io/ysakhno/adventofcode2023/day11/Day11.kt:139-140 | expanding columns that hold only dots keeps the empty rows |
| Day11.MoveTwice | src/main/kotlin/io/ysakhno/adventofcode2023/day11/Day11.kt:135-141 | moving the columns and then the rows is one relocation in both coordinates |
| Day11.FactorOneKeepsPlaces | src/main/kotlin/io/ysakhno/adventofcode2023/day11/Day11.kt:135-141 | with a factor of 1 nothing moves |
| Day11.SumDistances | src/main/kotlin/io/ysakhno/adventofcode2023/day11/Day11.kt:150-152 | the distances from one galaxy to the later ones sum to a non-negative total |
| Day11.PairSum | src/main/kotlin/io/ysakhno/adventofcode2023/day11/Day11.kt:149-154 | the sum over all unordered pairs is non-negative |
| Day11.SumDistancesSnoc | src/main/kotlin/io/ysakhno/adventofcode2023/day11/Day11.kt:150-152 | one more later galaxy adds its distance |
| Day11.PairSumSnoc | src/main/kotlin/io/ysakhno/adventofcode2023/day11/Day11.kt:149-154 | one more galaxy adds its distances to all the earlier ones, so every unordered pair is counted once |
| Day11.SolveWithoutMaterialising | src/main/kotlin/io/ysakhno/adventofcode2023/day11/Day11.kt:143-155 | the pair sum over the expanded image equals the pair sum over the original galaxies relocated, without building the image |
| Day12.Split | src/main/kotlin/io/ysakhno/adventofcode2023/day12/Day12.kt:124 | `split` always gives at least one piece |
| Day12.SplitJoin | src/main/kotlin/io/ysakhno/adventofcode2023/day12/Day12.kt:124 | no piece holds the separator, and joining the pieces with it gives the string back |
| Day12.SplitNoSeparator | src/main/kotlin/io/ysakhno/adventofcode2023/day12/Day12.kt:124 | no piece of a split holds the separator |
| Day12.SplitJoinBack | src/main/kotlin/io/ysakhno/adventofcode2023/day12/Day12.kt:124 | joining the pieces with the separator gives the string back |
| Day12.NonEmptyPieces | src/main/kotlin/io/ysakhno/adventofcode2023/day12/Day12.kt:183 | the kept pieces are non-empty pieces of the input |
| Day12.Lengths | src/main/kotlin/io/ysakhno/adventofcode2023/day12/Day12.kt:184 | one length per piece |
| Day12.SoftGroups | src/main/kotlin/io/ysakhno/adventofcode2023/day12/Day12.kt:124 | every soft group is a non-empty run of `#` and `?`, and together they are the row without its dots |
| Day12.SplitPiecesAreSoft | src/main/kotlin/io/ysakhno/adventofcode2023/day12/Day12.kt:124 | splitting a row at its dots leaves pieces of `#` and `?` only |
| Day12.NonEmptyConcat | src/main/kotlin/io/ysakhno/adventofcode2023/day12/Day12.kt:124 | dropping empty pieces does not change their concatenation |
| Day12.SplitConcatIsWithoutDots | src/main/kotlin/io/ysakhno/adventofcode2023/day12/Day12.kt:124 | the pieces of a split at dots concatenate to the row without its dots |
| Day12.IndexOfFirstKnown | src/main/kotlin/io/ysakhno/adventofcode2023/day12/Day12.kt:122 | the index of the first `#`, or -1 exactly when there is none |
| Day12.SplitAt | src/main/kotlin/io/ysakhno/adventofcode2023/day12/Day12.kt:126-129 | splitting at the end gives the group and an empty rest; inside, it fails exactly on a non-`?` and otherwise cuts out that `?` |
| Day12.Hashes | src/main/kotlin/io/ysakhno/adventofcode2023/day12/Day12.kt:184 | n damaged springs and no dot |
| Day12.DamagedGroupSizesOfHashes | src/main/kotlin/io/ysakhno/adventofcode2023/day12/Day12.kt:182-184 | a run of n `#` is one group of size n, or none for n = 0 |
| Day12.SplitWithoutSep | src/main/kotlin/io/ysakhno/adventofcode2023/day12/Day12.kt:182 | a string without dots splits into itself |
| Day12.SplitAfterPiece | src/main/kotlin/io/ysakhno/adventofcode2023/day12/Day12.kt:182 | a dot-free piece followed by a dot splits off as the first piece |
| Day12.NonEmptyPiecesAppend | src/main/kotlin/io/ysakhno/adventofcode2023/day12/Day12.kt:183 | filtering empty pieces distributes over concatenation |
| Day12.LengthsAppend | src/main/kotlin/io/ysakhno/adventofcode2023/day12/Day12.kt:184 | taking lengths distributes over concatenation |
| Day12.DamagedGroupSizesAfterPiece | src/main/kotlin/io/ysakhno/adventofcode2023/day12/Day12.kt:182-184 | the group sizes of a piece, a dot and the rest are the piece's length (if non-empty) followed by the rest's sizes |
| Day12.OpenGroupIsFirst | src/main/kotlin/io/ysakhno/adventofcode2023/day12/Day12.kt:182-184 | a run of c `#` in front of a resolved row opens a first group of at least c |
| Day12.ResolvedArrangements | src/main/kotlin/io/ysakhno/adventofcode2023/day12/Day12.kt:180-185 | a row without `?` has one arrangement when its group sizes are the wanted ones and none otherwise |
| Day12.QuestionCount | src/main/kotlin/io/ysakhno/adventofcode2023/day12/Day12.kt:173 | no more unknowns than characters |
| Day12.Resolve | src/main/kotlin/io/ysakhno/adventofcode2023/day12/Day12.kt:174-177 | a variation keeps the row's length |
| Day12.ResolveCons | src/main/kotlin/io/ysakhno/adventofcode2023/day12/Day12.kt:174-177 | each `?` takes the next bit of the mask, `#` for 1 and `.` for 0; other characters stay |
| Day12.ResolveAt | src/main/kotlin/io/ysakhno/adventofcode2023/day12/Day12.kt:174-177 | position i keeps a known character, and an unknown becomes `#` exactly when the mask bit for its rank among the unknowns is set |
| Day12.ResolveAgrees | src/main/kotlin/io/ysakhno/adventofcode2023/day12/Day12.kt:174-177 | known characters are kept and every unknown is decided by its own mask bit |
| Day12.ResolveIsResolved | src/main/kotlin/io/ysakhno/adventofcode2023/day12/Day12.kt:176 | a variation holds no `?` |
| Day12.Variations | src/main/kotlin/io/ysakhno/adventofcode2023/day12/Day12.kt:172-178 | 2^k variations for k unknowns, each of the row's length, without `?`, and agreeing with every known character |
| Day12.VariationsDistinct | src/main/kotlin/io/ysakhno/adventofcode2023/day12/Day12.kt:174-177 | different masks give different variations, so no arrangement is counted twice |
| Day12.CountMatching | src/main/kotlin/io/ysakhno/adventofcode2023/day12/Day12.kt:184 | no more variations match than there are |
| Day12.ArrangementsDot | src/main/kotlin/io/ysakhno/adventofcode2023/day12/Day12.kt:135-169 | a dot closes an open group only when it has the wanted size |
| Day12.ArrangementsHash | src/main/kotlin/io/ysakhno/adventofcode2023/day12/Day12.kt:135-169 | a `#` extends the open group only while it does not exceed the wanted size |
| Day12.ArrangementsQuestion | src/main/kotlin/io/ysakhno/adventofcode2023/day12/Day12.kt:135-169 | an unknown counts the arrangements with a dot plus those with a `#` |
| Day12.SumOverMasksDot | src/main/kotlin/io/ysakhno/adventofcode2023/day12/Day12.kt:172-185 | over masks, a leading dot behaves as in the direct count |
| Day12.SumOverMasksHash | src/main/kotlin/io/ysakhno/adventofcode2023/day12/Day12.kt:172-185 | over masks, a leading `#` behaves as in the direct count |
| Day12.SumOverMasksQuestion | src/main/kotlin/io/ysakhno/adventofcode2023/day12/Day12.kt:172-185 | over twice the masks, a leading `?` sums its dot and `#` cases |
| Day12.HalfMask | src/main/kotlin/io/ysakhno/adventofcode2023/day12/Day12.kt:174-177 | the lowest mask bit decides a leading `?` and the other bits the rest |
| Day12.MasksEnumerateArrangements | src/main/kotlin/io/ysakhno/adventofcode2023/day12/Day12.kt:172-185 | summing over all masks gives the direct arrangement count |
| Day12.MasksDot | src/main/kotlin/io/ysakhno/adventofcode2023/day12/Day12.kt:172-185 | the enumeration agrees with the direct count after a leading dot |
| Day12.MasksHash | src/main/kotlin/io/ysakhno/adventofcode2023/day12/Day12.kt:172-185 | the enumeration agrees with the direct count after a leading `#` |
| Day12.MasksQuestion | src/main/kotlin/io/ysakhno/adventofcode2023/day12/Day12.kt:172-185 | the enumeration agrees with the direct count after a leading `?` |
| Day12.CountMatchingIsSum | src/main/kotlin/io/ysakhno/adventofcode2023/day12/Day12.kt:180-185 | the number of matching variations among the first n is the sum over the first n masks |
| Day12.ResolvedCountsOnce | src/main/kotlin/io/ysakhno/adventofcode2023/day12/Day12.kt:184 | each variation counts once when its group sizes match and not at all otherwise |
| Day12.CountMatchingStep | src/main/kotlin/io/ysakhno/adventofcode2023/day12/Day12.kt:184 | one more variation adds one exactly when it matches |
| Day12.SumOverMasksStep | src/main/kotlin/io/ysakhno/adventofcode2023/day12/Day12.kt:172-185 | one more mask adds that variation's count |
| Day12.ExhaustiveIsArrangements | src/main/kotlin/io/ysakhno/adventofcode2023/day12/Day12.kt:180-185 | `countExhaustively` equals the direct arrangement count |
| Day12.FullyKnownRow | src/main/kotlin/io/ysakhno/adventofcode2023/day12/Day12.kt:180-185 | a row without unknowns counts 1 when its groups match and 0 otherwise |
| Day12.NoDamageNoGroups | src/main/kotlin/io/ysakhno/adventofcode2023/day12/Day12.kt:180-185 | a row without `#` has exactly one arrangement with no groups (all unknowns working) |
| Day12.NoGroupsArrangements | src/main/kotlin/io/ysakhno/adventofcode2023/day12/Day12.kt:138 | with no groups left there is one arrangement when no `#` remains and none otherwise |
| Day12.JoinFirst | src/main/kotlin/io/ysakhno/adventofcode2023/day12/Day12.kt:141 | a list of soft groups reads as its first group followed by the rest |
| Day12.TailArrangements | src/main/kotlin/io/ysakhno/adventofcode2023/day12/Day12.kt:141 | the rest after the first group counts as the joined rest |
| Day12.SplitTerms | src/main/kotlin/io/ysakhno/adventofcode2023/day12/Day12.kt:147-163 | one term per split point of the first group, including its end |
| Day12.SplitTermsAt | src/main/kotlin/io/ysakhno/adventofcode2023/day12/Day12.kt:147-163 | term i is the split of the first group at i |
| Day12.MaxEnd | src/main/kotlin/io/ysakhno/adventofcode2023/day12/Day12.kt:149 | the last split point lies within the group, and not before the group size when the group is long enough |
| Day12.SplitTermMeaning | src/main/kotlin/io/ysakhno/adventofcode2023/day12/Day12.kt:151-153 | splitting at the end continues with the other groups; at a `?` with the rest of the group; at a `#` it counts nothing |
| Day12.GroupRun | src/main/kotlin/io/ysakhno/adventofcode2023/day12/Day12.kt:150-153 | a damaged run of size g that starts at p is counted by the split at p + g, or not at all if the group is too short |
| Day12.ScanSoftGroup | src/main/kotlin/io/ysakhno/adventofcode2023/day12/Day12.kt:147-162 | the arrangements from position j are those skipping the rest of the group (if it holds no `#`) plus those whose first damaged run starts in it |
| Day12.EndBound | src/main/kotlin/io/ysakhno/adventofcode2023/day12/Day12.kt:149 | the bound on split points stays within the group |
| Day12.EndBoundStep | src/main/kotlin/io/ysakhno/adventofcode2023/day12/Day12.kt:149 | the first `#` fixes the last possible split point at most g further on |
| Day12.StartSumIsRangeSum | src/main/kotlin/io/ysakhno/adventofcode2023/day12/Day12.kt:149-160 | summing over run starts is summing the split terms from g up to the bound |
| Day12.SegmentStep | src/main/kotlin/io/ysakhno/adventofcode2023/day12/Day12.kt:146-163 | for a first soft group longer than its group size: the splits between the group size and the last end allowed by the first `#`, plus skipping the group when it holds no `#` |
| Day12.SegmentStepFor | src/main/kotlin/io/ysakhno/adventofcode2023/day12/Day12.kt:146-163 | the same, for the parts of the lists named separately |
| Day12.JoinFirstOf | src/main/kotlin/io/ysakhno/adventofcode2023/day12/Day12.kt:141 | a non-empty list of soft groups reads as its first group followed by the rest |
| Day12.ScanWhole | src/main/kotlin/io/ysakhno/adventofcode2023/day12/Day12.kt:147-162 | the scan from the start of the first group |
| Day12.StartSumWhole | src/main/kotlin/io/ysakhno/adventofcode2023/day12/Day12.kt:149-160 | the run starts of the whole group sum to the split terms from g to the last end |
| Day12.NoGroupsLeft | src/main/kotlin/io/ysakhno/adventofcode2023/day12/Day12.kt:138 | with no groups left there is one arrangement when no soft group holds `#` and none otherwise |
| Day12.JoinIsRow | src/main/kotlin/io/ysakhno/adventofcode2023/day12/Day12.kt:188 | soft groups joined by dots form a row |
| Day12.JoinContainsKnown | src/main/kotlin/io/ysakhno/adventofcode2023/day12/Day12.kt:132 | the joined groups hold `#` exactly when one of them does |
| Day12.NoSoftGroupsLeft | src/main/kotlin/io/ysakhno/adventofcode2023/day12/Day12.kt:139 | groups left but no soft groups: no arrangement |
| Day12.ShortSoftGroup | src/main/kotlin/io/ysakhno/adventofcode2023/day12/Day12.kt:144-145 | a first group shorter than the group size counts nothing if it holds `#`, otherwise it is skipped |
| Day12.ExactFit | src/main/kotlin/io/ysakhno/adventofcode2023/day12/Day12.kt:164-168 | a first group of exactly the group size is the group, plus being skipped when it holds no `#` |
| Day12.CountPossibilities | src/main/kotlin/io/ysakhno/adventofcode2023/day12/Day12.kt:134-170 | `countPossibilities` returns the number of arrangements of the joined soft groups |
| Day12.CountLongerSoftGroup | src/main/kotlin/io/ysakhno/adventofcode2023/day12/Day12.kt:146-163 | the branch for a longer first group computes that number too |
| Day12.CountEndingAt | src/main/kotlin/io/ysakhno/adventofcode2023/day12/Day12.kt:151-153 | one split at i counts the arrangements of that split |
| Day12.SubGroupFits | src/main/kotlin/io/ysakhno/adventofcode2023/day12/Day12.kt:152-153 | the recursive call gets soft groups of smaller total length, so the recursion ends |
| Day12.SoftGroupsKeepArrangements | src/main/kotlin/io/ysakhno/adventofcode2023/day12/Day12.kt:188 | dropping dots by splitting into soft groups does not change the arrangement count |
| Day12.AppendDot | src/main/kotlin/io/ysakhno/adventofcode2023/day12/Day12.kt:188 | a trailing dot does not change the count |
| Day12.ExchangeAfterDot | src/main/kotlin/io/ysakhno/adventofcode2023/day12/Day12.kt:188 | after a dot, two tails with the same counts for every group list can be exchanged |
| Day12.SplitDropsDots | src/main/kotlin/io/ysakhno/adventofcode2023/day12/Day12.kt:124 | joining the non-empty pieces of a split at dots keeps the count |
| Day12.DropFirstDot | src/main/kotlin/io/ysakhno/adventofcode2023/day12/Day12.kt:124 | the same for one piece before a dot |
| Day12.FirstDot | src/main/kotlin/io/ysakhno/adventofcode2023/day12/Day12.kt:124 | the position of the first dot |
| Day12.CountRecursively | src/main/kotlin/io/ysakhno/adventofcode2023/day12/Day12.kt:187-188 | the recursive count equals the exhaustive count over all variations |
| Day12.JoinedCopiesStep | src/main/kotlin/io/ysakhno/adventofcode2023/day12/Day12.kt:197 | k copies joined by `?` are one copy, a `?` and k - 1 joined copies |
| Day12.Unfold | src/main/kotlin/io/ysakhno/adventofcode2023/day12/Day12.kt:196-198 | unfolding gives five copies of the row joined by `?` and five copies of the group sizes, and keeps a valid row and positive groups |
| Day12.FiveJoinedCopies | src/main/kotlin/io/ysakhno/adventofcode2023/day12/Day12.kt:197 | five joined copies spelled out |
| Day12.FiveCopies | src/main/kotlin/io/ysakhno/adventofcode2023/day12/Day12.kt:197 | five copies of the group list spelled out |
| Day12.UnfoldedRow | src/main/kotlin/io/ysakhno/adventofcode2023/day12/Day12.kt:197 | an unfolded row is still a row |
| Day12.RowsJoin | src/main/kotlin/io/ysakhno/adventofcode2023/day12/Day12.kt:197 | two rows joined by `?` form a row |
| Day12.Part1 | src/main/kotlin/io/ysakhno/adventofcode2023/day12/Day12.kt:190-192 | part 1 sums the exhaustive counts of the rows |
| Day12.Part2 | src/main/kotlin/io/ysakhno/adventofcode2023/day12/Day12.kt:194-199 | part 2 sums the exhaustive counts of the unfolded rows |
| Day12.UnfoldAll | src/main/kotlin/io/ysakhno/adventofcode2023/day12/Day12.kt:196-198 | each row is unfolded in place and stays valid |
| Day13.GridsFrom | src/main/kotlin/io/ysakhno/adventofcode2023/day13/Day13.kt:140-144 | one grid more than there are separator lines |
| Day13.GridsFromKeepsLines | src/main/kotlin/io/ysakhno/adventofcode2023/day13/Day13.kt:140-144 | the grids hold every non-separator line, in order, and nothing else |
| Day13.CountDifferences | src/main/kotlin/io/ysakhno/adventofcode2023/day13/Day13.kt:146 | `zip` stops at the shorter row, so there are no more differences than either row has cells |
| Day13.CountDifferencesSymmetric | src/main/kotlin/io/ysakhno/adventofcode2023/day13/Day13.kt:146 | the count does not depend on the order of the rows |
| Day13.CountDifferencesZero | src/main/kotlin/io/ysakhno/adventofcode2023/day13/Day13.kt:146 | no differences exactly when the rows agree on their common length |
| Day13.ReflectionDifferencesZero | src/main/kotlin/io/ysakhno/adventofcode2023/day13/Day13.kt:148-151 | the mirrored pairs from a row on add up to no differences exactly when each pair has none |
| Day13.ReflectedIffMirrored | src/main/kotlin/io/ysakhno/adventofcode2023/day13/Day13.kt:148-151 | with no smudge allowed, a grid is reflected about a line exactly when each row below it within reach equals its mirror row above |
| Day13.FindReflectionFrom | src/main/kotlin/io/ysakhno/adventofcode2023/day13/Day13.kt:153-154 | the search returns the first reflection line from a start on, or -1 exactly when there is none |
| Day13.ReflectionPoints | src/main/kotlin/io/ysakhno/adventofcode2023/day13/Day13.kt:156-157 | the score is -1 exactly when there is no line either way; 100 times a horizontal line, or a vertical line, otherwise, and the line found is a reflection |
| Day13.SecondExampleMirrorsAt4 | src/main/kotlin/io/ysakhno/adventofcode2023/day13/Day13.kt:166 | the second example grid of the puzzle is reflected about row 4 |
| Day13.MirroredAt4 | src/main/kotlin/io/ysakhno/adventofcode2023/day13/Day13.kt:148-151 | a seven-row grid whose rows 4..6 mirror rows 3..1 is reflected about row 4 |
| Day13.SecondExampleNotEarlier | src/main/kotlin/io/ysakhno/adventofcode2023/day13/Day13.kt:166 | the second example is reflected about no earlier row |
| Day13.NotReflectedAt | src/main/kotlin/io/ysakhno/adventofcode2023/day13/Day13.kt:148-151 | one differing cell in a mirrored pair rules a line out when no smudge is allowed |
| Day13.SecondExampleHorizontal | src/main/kotlin/io/ysakhno/adventofcode2023/day13/Day13.kt:153-154 | for the second example the search finds row 4 |
| Day13.FirstReflectionAt4 | src/main/kotlin/io/ysakhno/adventofcode2023/day13/Day13.kt:153-154 | a grid reflected about row 4 but about no earlier row gives 4 |
| Day14.RocksIn | src/main/kotlin/io/ysakhno/adventofcode2023/day14/Day14.kt:173 | a stretch of a row holds no more rounded rocks than cells |
| Day14.SegStart | src/main/kotlin/io/ysakhno/adventofcode2023/day14/Day14.kt:118-138 | a cell's stretch starts at the row start or right after a cube rock |
| Day14.SegEnd | src/main/kotlin/io/ysakhno/adventofcode2023/day14/Day14.kt:118-138 | a cell's stretch ends at the row end or at a cube rock |
| Day14.Tilted | src/main/kotlin/io/ysakhno/adventofcode2023/day14/Day14.kt:118-138 | the tilted row keeps its length, and each cell holds what tilting puts there: cube rocks stay, each stretch is packed with its rounded rocks at its start |
| Day14.StretchClear | src/main/kotlin/io/ysakhno/adventofcode2023/day14/Day14.kt:129 | a stretch holds no cube rock |
| Day14.StartClear | src/main/kotlin/io/ysakhno/adventofcode2023/day14/Day14.kt:129 | no cube rock between a stretch's start and any of its cells |
| Day14.EndClear | src/main/kotlin/io/ysakhno/adventofcode2023/day14/Day14.kt:129 | no cube rock between a cell and its stretch's end |
| Day14.SegStartIs | src/main/kotlin/io/ysakhno/adventofcode2023/day14/Day14.kt:129 | the start of a stretch is the first cell after a cube rock with no cube rock before the cell |
| Day14.SegEndIs | src/main/kotlin/io/ysakhno/adventofcode2023/day14/Day14.kt:129 | the end of a stretch is the first cube rock (or the row end) after the cell |
| Day14.SameStretch | src/main/kotlin/io/ysakhno/adventofcode2023/day14/Day14.kt:118-138 | all cells of a stretch share its start and end |
| Day14.SameCubesSameStretch | src/main/kotlin/io/ysakhno/adventofcode2023/day14/Day14.kt:118-138 | rows with the cube rocks in the same places have the same stretches |
| Day14.RocksSplit | src/main/kotlin/io/ysakhno/adventofcode2023/day14/Day14.kt:173 | the rocks of a stretch are those of its two parts |
| Day14.PackedCount | src/main/kotlin/io/ysakhno/adventofcode2023/day14/Day14.kt:125-128 | a stretch packed with c rocks from its start holds min(length, c) of them |
| Day14.NoRocks | src/main/kotlin/io/ysakhno/adventofcode2023/day14/Day14.kt:173 | a stretch without `O` holds no rounded rock |
| Day14.SomeRock | src/main/kotlin/io/ysakhno/adventofcode2023/day14/Day14.kt:173 | a stretch with an `O` holds one |
| Day14.UpdateInside | src/main/kotlin/io/ysakhno/adventofcode2023/day14/Day14.kt:126-127 | writing a cell inside a stretch changes its rock count by what was written and removed |
| Day14.UpdateOutside | src/main/kotlin/io/ysakhno/adventofcode2023/day14/Day14.kt:126-127 | writing a cell outside a stretch leaves its rock count alone |
| Day14.TiltedInStretch | src/main/kotlin/io/ysakhno/adventofcode2023/day14/Day14.kt:118-138 | within a stretch the tilted row holds `O` on its first k cells for its k rocks and `.` after them |
| Day14.PackedPrefix | src/main/kotlin/io/ysakhno/adventofcode2023/day14/Day14.kt:118-138 | a settled prefix of a stretch holds as many rocks as the packing puts there |
| Day14.SettledAt | src/main/kotlin/io/ysakhno/adventofcode2023/day14/Day14.kt:121-136 | an empty cell gets a rock exactly when a rock remains further along its stretch; otherwise the rest of the stretch stays empty |
| Day14.StepKeep | src/main/kotlin/io/ysakhno/adventofcode2023/day14/Day14.kt:122-135 | a rock or cube under the cursor is already settled |
| Day14.StepCube | src/main/kotlin/io/ysakhno/adventofcode2023/day14/Day14.kt:129 | an empty cell followed by empty cells up to a cube stays empty, and the cursor jumps to the cube |
| Day14.StepEmpty | src/main/kotlin/io/ysakhno/adventofcode2023/day14/Day14.kt:123-133 | an empty cell with only empty cells after it stays empty |
| Day14.StepSwap | src/main/kotlin/io/ysakhno/adventofcode2023/day14/Day14.kt:125-128 | moving the next rounded rock of the stretch into an empty cell settles that cell |
| Day14.SwapKeepsStretch | src/main/kotlin/io/ysakhno/adventofcode2023/day14/Day14.kt:125-128 | the swap keeps the rock count of every stretch |
| Day14.SwapKeepsStretches | src/main/kotlin/io/ysakhno/adventofcode2023/day14/Day14.kt:125-128 | the swap keeps the rock count of all the stretches of the row at once |
| Day14.RollDone | src/main/kotlin/io/ysakhno/adventofcode2023/day14/Day14.kt:121-137 | when the cursor passes the end the row is the tilted row |
| Day14.RollRow | src/main/kotlin/io/ysakhno/adventofcode2023/day14/Day14.kt:118-138 | rolling a row in place turns it into its tilted form |
| Day14.TiltKeepsCubes | src/main/kotlin/io/ysakhno/adventofcode2023/day14/Day14.kt:118-138 | tilting keeps the cube rocks in place and gives a platform row |
| Day14.TiltKeepsStretchRocks | src/main/kotlin/io/ysakhno/adventofcode2023/day14/Day14.kt:118-138 | tilting keeps the rock count of every stretch |
| Day14.TiltKeepsRocksUpTo | src/main/kotlin/io/ysakhno/adventofcode2023/day14/Day14.kt:118-138 | tilting keeps the number of rocks before each cube rock |
| Day14.RocksAcrossCube | src/main/kotlin/io/ysakhno/adventofcode2023/day14/Day14.kt:173 | counts that agree before and after a cube agree across it |
| Day14.TiltKeepsRocks | src/main/kotlin/io/ysakhno/adventofcode2023/day14/Day14.kt:118-138 | tilting keeps the number of rounded rocks in a row |
| Day14.TiltPacks | src/main/kotlin/io/ysakhno/adventofcode2023/day14/Day14.kt:118-138 | in a tilted row an empty cell is followed by a rounded rock only across a cube rock |
| Day14.EmptyStaysEmpty | src/main/kotlin/io/ysakhno/adventofcode2023/day14/Day14.kt:118-138 | after an empty cell of a stretch the rest of it is empty |
| Day14.TiltIdempotent | src/main/kotlin/io/ysakhno/adventofcode2023/day14/Day14.kt:118-138 | tilting twice is tilting once |
| Day14.RocksInMatch | src/main/kotlin/io/ysakhno/adventofcode2023/day14/Day14.kt:173 | equal stretches hold equal counts |
| Day14.RocksConcat | src/main/kotlin/io/ysakhno/adventofcode2023/day14/Day14.kt:173 | the rocks of two joined rows add up |
| Day14.RocksReverse | src/main/kotlin/io/ysakhno/adventofcode2023/day14/Day14.kt:154 | reversing a row keeps its rocks |
| Day14.TotalRocksConcat | src/main/kotlin/io/ysakhno/adventofcode2023/day14/Day14.kt:173 | the rocks of two blocks of rows add up |
| Day14.TotalRocksReverse | src/main/kotlin/io/ysakhno/adventofcode2023/day14/Day14.kt:146-155 | reversing the rows keeps the rocks |
| Day14.TotalRocksWithColumn | src/main/kotlin/io/ysakhno/adventofcode2023/day14/Day14.kt:140 | adding a column adds its rocks |
| Day14.TotalRocksOfEmptyRows | src/main/kotlin/io/ysakhno/adventofcode2023/day14/Day14.kt:173 | empty rows hold no rocks |
| Day14.TotalRocksTranspose | src/main/kotlin/io/ysakhno/adventofcode2023/day14/Day14.kt:140 | transposing a rectangular platform keeps its rocks |
| Day14.TiltAll | src/main/kotlin/io/ysakhno/adventofcode2023/day14/Day14.kt:118 | `rollOnce` tilts every row |
| Day14.RollOnce | src/main/kotlin/io/ysakhno/adventofcode2023/day14/Day14.kt:118-138 | the row loop produces every row tilted |
| Day14.TiltAllKeeps | src/main/kotlin/io/ysakhno/adventofcode2023/day14/Day14.kt:118-138 | tilting every row keeps the platform, the rocks and each row's cubes |
| Day14.TiltAllKeepsRocks | src/main/kotlin/io/ysakhno/adventofcode2023/day14/Day14.kt:118-138 | tilting every row keeps the total of rounded rocks |
| Day14.TransposePlatform | src/main/kotlin/io/ysakhno/adventofcode2023/day14/Day14.kt:140 | a transposed platform is a platform |
| Day14.RollColumns | src/main/kotlin/io/ysakhno/adventofcode2023/day14/Day14.kt:140-142 | rolling the columns gives a rectangular platform with one row per column |
| Day14.RollColumnsCubes | src/main/kotlin/io/ysakhno/adventofcode2023/day14/Day14.kt:140-142 | rolling the columns keeps every cube rock, transposed |
| Day14.RollReversed | src/main/kotlin/io/ysakhno/adventofcode2023/day14/Day14.kt:146-149 | reversing and rolling gives a rectangular platform with one row per column |
| Day14.RollReversedCubes | src/main/kotlin/io/ysakhno/adventofcode2023/day14/Day14.kt:146-149 | reversing and rolling keeps every cube rock, reversed and transposed |
| Day14.ReverseRows | src/main/kotlin/io/ysakhno/adventofcode2023/day14/Day14.kt:154 | every row reversed in place |
| Day14.HalfTurn | src/main/kotlin/io/ysakhno/adventofcode2023/day14/Day14.kt:154-155 | reversing every row and the row order turns the platform by half a turn |
| Day14.SpinCycle | src/main/kotlin/io/ysakhno/adventofcode2023/day14/Day14.kt:140-155 | a spin cycle gives a rectangular platform |
| Day14.RollColumnsRocks | src/main/kotlin/io/ysakhno/adventofcode2023/day14/Day14.kt:140-142 | rolling the columns keeps the rounded rocks |
| Day14.SpinKeepsRocks | src/main/kotlin/io/ysakhno/adventofcode2023/day14/Day14.kt:140-155 | a spin cycle keeps the number of rounded rocks |
| Day14.RollReversedRocks | src/main/kotlin/io/ysakhno/adventofcode2023/day14/Day14.kt:146-149 | reversing and rolling keeps the rounded rocks |
| Day14.ReverseRowsRocks | src/main/kotlin/io/ysakhno/adventofcode2023/day14/Day14.kt:154 | reversing every row keeps the rounded rocks |
| Day14.RollColumnsCubesAll | src/main/kotlin/io/ysakhno/adventofcode2023/day14/Day14.kt:140-142 | every cube after rolling the columns is the transposed original cube |
| Day14.RollReversedCubesAll | src/main/kotlin/io/ysakhno/adventofcode2023/day14/Day14.kt:146-149 | every cube after reversing and rolling is the reversed, transposed original cube |
| Day14.CubesAfterFourRolls | src/main/kotlin/io/ysakhno/adventofcode2023/day14/Day14.kt:140-155 | after the four rolls the cubes stand half a turn from where they were |
| Day14.SpinKeepsCubes | src/main/kotlin/io/ysakhno/adventofcode2023/day14/Day14.kt:140-155 | a spin cycle keeps the size and every cube rock in place |
| Day14.TotalLoadFromTop | src/main/kotlin/io/ysakhno/adventofcode2023/day14/Day14.kt:172-174 | the load counted from the bottom equals each rock weighing its distance to the south edge |
| Day14.WeightedRocksBounds | src/main/kotlin/io/ysakhno/adventofcode2023/day14/Day14.kt:172-174 | weighing the rows from the bottom, each rounded rock weighs at least 1 and at most the number of rows |
| Day14.LoadBounds | src/main/kotlin/io/ysakhno/adventofcode2023/day14/Day14.kt:172-174 | the load of a platform lies between its number of rounded rocks and that number times its height |
| Day14.NorthTiltBounds | src/main/kotlin/io/ysakhno/adventofcode2023/day14/Day14.kt:176-180 | after tilting a rectangular platform north its load lies between its number of rounded rocks and that number times its height |
| Day14.NorthTiltLoad | src/main/kotlin/io/ysakhno/adventofcode2023/day14/Day14.kt:176-180 | part 1: the load after tilting north; on a rectangular platform it lies between the number of rounded rocks and that number times the height |
| Day14.TopRowLoad | src/main/kotlin/io/ysakhno/adventofcode2023/day14/Day14.kt:172-174 | rocks only in the top row weigh the number of rows each |
| Day14.NoLoad | src/main/kotlin/io/ysakhno/adventofcode2023/day14/Day14.kt:172-174 | rows without rounded rocks weigh nothing |
| Day14.Spin | src/main/kotlin/io/ysakhno/adventofcode2023/day14/Day14.kt:140-155 | one spin cycle keeps a platform valid, and a rectangular one rectangular with the same number of rounded rocks; any other grid is left as it is |
| Day14.SpinN | src/main/kotlin/io/ysakhno/adventofcode2023/day14/Day14.kt:157-170 | any number of spin cycles keeps a valid platform valid, and a rectangular one rectangular with the same number of rounded rocks |
| Day14.SpinNIterates | src/main/kotlin/io/ysakhno/adventofcode2023/day14/Day14.kt:159-162 | k spin cycles are the spin cycle applied k times in a row |
| Day14.SpinNStep | src/main/kotlin/io/ysakhno/adventofcode2023/day14/Day14.kt:161-162 | k + 1 cycles are one more cycle after k |
| Day14.IndexOf | src/main/kotlin/io/ysakhno/adventofcode2023/day14/Day14.kt:164 | `indexOf` gives the first occurrence |
| Day14.RepeatCycles | src/main/kotlin/io/ysakhno/adventofcode2023/day14/Day14.kt:157-170 | the loop with cycle detection returns the state after exactly `numCycles` steps (none if not positive) |
| Day14.RepeatSpinCycles | src/main/kotlin/io/ysakhno/adventofcode2023/day14/Day14.kt:157-170 | `repeatSpinCycles` returns the platform after that many spin cycles |
| Day14.SpunLoad | src/main/kotlin/io/ysakhno/adventofcode2023/day14/Day14.kt:182 | part 2 is the load after that many spin cycles |
| Common.IterateAdd | src/main/kotlin/io/ysakhno/adventofcode2023/day14/Day14.kt:161-162 | a + k steps are a steps followed by k more |
| Common.IteratePeriodic | src/main/kotlin/io/ysakhno/adventofcode2023/day14/Day14.kt:163-165 | once state i repeats state start, the state after m steps is the one at start + (m - start) mod (i - start) |
| Common.Orbit | src/main/kotlin/io/ysakhno/adventofcode2023/day14/Day14.kt:159 | the list of generated states has one entry per step taken |
| Common.OrbitAt | src/main/kotlin/io/ysakhno/adventofcode2023/day14/Day14.kt:159-166 | entry k of the generated states is the state after k steps |
| Common.OrbitPeriodic | src/main/kotlin/io/ysakhno/adventofcode2023/day14/Day14.kt:164-165 | the index picked on a repeat lies among the states seen and holds the state after n steps |
| Day16.AnyDirection | src/main/kotlin/io/ysakhno/adventofcode2023/day16/Day16.kt:122 | the four directions are all there are |
| Day16.BorderedAsWritten | src/main/kotlin/io/ysakhno/adventofcode2023/day16/Day16.kt:130-131 | `bordered` as written adds a frame row above and below |
| Day16.Bordered | src/main/kotlin/io/ysakhno/adventofcode2023/day16/Day16.kt:130-131 | the corrected frame adds a row above and below |
| Day16.BorderedCells | src/main/kotlin/io/ysakhno/adventofcode2023/day16/Day16.kt:130-131 | every cell of the layout is found one row down and one column right, and a rectangular layout comes out framed |
| Day16.BorderedAsWrittenSquare | src/main/kotlin/io/ysakhno/adventofcode2023/day16/Day16.kt:131 | on a square layout the frame as written is the corrected frame |
| Day16.MirrorTable | src/main/kotlin/io/ysakhno/adventofcode2023/day16/Day16.kt:143-175 | the two mirrors turn each direction as the puzzle states |
| Day16.MirrorReversible | src/main/kotlin/io/ysakhno/adventofcode2023/day16/Day16.kt:143-175 | a mirror sends one beam, and the reversed beam comes back reversed |
| Day16.SplitterSides | src/main/kotlin/io/ysakhno/adventofcode2023/day16/Day16.kt:143-175 | a splitter met on its pointy end passes the beam like empty space; met on its flat side it sends two beams perpendicular to it |
| Day16.FrameAbsorbs | src/main/kotlin/io/ysakhno/adventofcode2023/day16/Day16.kt:143-175 | any other character (the frame) stops the beam |
| Day16.Next | src/main/kotlin/io/ysakhno/adventofcode2023/day16/Day16.kt:143-175 | the step fails exactly when the next cell is off the layout, and otherwise gives photons on that next cell |
| Day16.NextTurns | src/main/kotlin/io/ysakhno/adventofcode2023/day16/Day16.kt:143-175 | each new photon goes in a direction the entered cell gives |
| Day16.ReachesSelf | src/main/kotlin/io/ysakhno/adventofcode2023/day16/Day16.kt:135 | the start reaches itself |
| Day16.ReachesHop | src/main/kotlin/io/ysakhno/adventofcode2023/day16/Day16.kt:143 | a step from a reached photon is reached |
| Day16.WalkWithin | src/main/kotlin/io/ysakhno/adventofcode2023/day16/Day16.kt:137-176 | a walk from inside a closed set of photons stays in it |
| Day16.BeamWithin | src/main/kotlin/io/ysakhno/adventofcode2023/day16/Day16.kt:137-176 | the beam lies inside every closed set that holds the start |
| Day16.ReachesTile | src/main/kotlin/io/ysakhno/adventofcode2023/day16/Day16.kt:134-139 | every photon reached after the start stands on a tile |
| Day16.TileInSet | src/main/kotlin/io/ysakhno/adventofcode2023/day16/Day16.kt:134 | every cell of the layout has a tile |
| Day16.RecordsAdd | src/main/kotlin/io/ysakhno/adventofcode2023/day16/Day16.kt:141 | adding a direction to a tile records one more expanded photon |
| Day16.RecordsTiles | src/main/kotlin/io/ysakhno/adventofcode2023/day16/Day16.kt:178 | the tiles with some direction are exactly the tiles of the expanded photons |
| Day16.ExploredStart | src/main/kotlin/io/ysakhno/adventofcode2023/day16/Day16.kt:135 | the queue holding only the start satisfies the loop invariant |
| Day16.ExploredSkip | src/main/kotlin/io/ysakhno/adventofcode2023/day16/Day16.kt:141 | skipping a photon already recorded keeps the invariant |
| Day16.ExploredExpand | src/main/kotlin/io/ysakhno/adventofcode2023/day16/Day16.kt:141-175 | expanding a new photon keeps the invariant and leaves fewer photons unexplored |
| Day16.ExploredFails | src/main/kotlin/io/ysakhno/adventofcode2023/day16/Day16.kt:143-175 | a step off the layout makes the count fail |
| Day16.ExploredDone | src/main/kotlin/io/ysakhno/adventofcode2023/day16/Day16.kt:178 | when the queue is empty the count is the energised tiles less the start's frame cell |
| Day16.CountEnergized | src/main/kotlin/io/ysakhno/adventofcode2023/day16/Day16.kt:133-179 | `countEnergized` returns the number of tiles the beam from the start passes through, less one, or fails exactly when the beam steps off the layout |
| Day16.HopOffFrame | src/main/kotlin/io/ysakhno/adventofcode2023/day16/Day16.kt:143-175 | no photon ends up on the frame |
| Day16.InnerCell | src/main/kotlin/io/ysakhno/adventofcode2023/day16/Day16.kt:143-175 | from a non-frame cell of a framed layout a step never falls off |
| Day16.FramedNeverFails | src/main/kotlin/io/ysakhno/adventofcode2023/day16/Day16.kt:133-179 | on a framed layout a beam that starts looking inward always gets a count |
| Day16.SideStartsInward | src/main/kotlin/io/ysakhno/adventofcode2023/day16/Day16.kt:186-187 | the side starts from row y on are two per row, each looking inward |
| Day16.EndStartsInward | src/main/kotlin/io/ysakhno/adventofcode2023/day16/Day16.kt:188-189 | the top and bottom starts from column x on are two per column, each looking inward |
| Day16.EdgeStartsInward | src/main/kotlin/io/ysakhno/adventofcode2023/day16/Day16.kt:186-189 | part 2 starts two beams per inner row and two per inner column, all looking inward |
| Day16.MaxOf | src/main/kotlin/io/ysakhno/adventofcode2023/day16/Day16.kt:190 | `maxOf` fails on no starts or on a failing start; otherwise it is one of the energies and at least every one of them |
| Day16.Energies | src/main/kotlin/io/ysakhno/adventofcode2023/day16/Day16.kt:190 | one energy per start |
| Day16.Part1 | src/main/kotlin/io/ysakhno/adventofcode2023/day16/Day16.kt:181 | part 1 is the energy of the beam entering the top-left cell from the left |
| Day16.MaxOfStep | src/main/kotlin/io/ysakhno/adventofcode2023/day16/Day16.kt:190 | one more start keeps the larger energy |
| Day16.Part2 | src/main/kotlin/io/ysakhno/adventofcode2023/day16/Day16.kt:183-191 | part 2 is the largest energy over the edge starts |
| Day16.Part1Defined | src/main/kotlin/io/ysakhno/adventofcode2023/day16/Day16.kt:181 | on a rectangular grid with the corrected frame part 1 always gets a count |
| Day16.Part2Defined | src/main/kotlin/io/ysakhno/adventofcode2023/day16/Day16.kt:183-191 | on a non-empty rectangular grid with the corrected frame part 2 always gets a count |
| Day16.ReachedFailure | src/main/kotlin/io/ysakhno/adventofcode2023/day16/Day16.kt:143-175 | a reached photon that would step off the layout makes the count fail |
| Day16.ClosedIsBeam | src/main/kotlin/io/ysakhno/adventofcode2023/day16/Day16.kt:133-179 | a closed set of reached photons holding the start gives the count |
| Day16.WideGridFallsOff | src/main/kotlin/io/ysakhno/adventofcode2023/day16/Day16.kt:131 | for the one-row grid `..\|` the frame as written is too narrow and the beam steps off it |
| Day16.WideGridFramed | src/main/kotlin/io/ysakhno/adventofcode2023/day16/Day16.kt:131 | with the corrected frame the same grid energises 3 tiles |
| Day16.WideGridSteps | src/main/kotlin/io/ysakhno/adventofcode2023/day16/Day16.kt:143-175 | the beam on that grid crosses two cells and splits on the `\|`, and nothing else follows |
| Day16.WideGridTiles | src/main/kotlin/io/ysakhno/adventofcode2023/day16/Day16.kt:178 | those photons cover four tiles |
| Day17.AnyDirection | src/main/kotlin/io/ysakhno/adventofcode2023/day17/Day17.kt:122 | the four directions are all there are |
| Day17.NeverReverses | src/main/kotlin/io/ysakhno/adventofcode2023/day17/Day17.kt:132-151 | neither crucible ever turns back; it goes on straight or turns left or right |
| Day17.StandardRules | src/main/kotlin/io/ysakhno/adventofcode2023/day17/Day17.kt:132-141 | the normal crucible may go straight exactly while it has gone fewer than three blocks straight, and may always turn |
| Day17.UltraRules | src/main/kotlin/io/ysakhno/adventofcode2023/day17/Day17.kt:142-151 | the ultra crucible must go straight for its first four blocks, may go straight exactly below ten, and may turn from four on |
| Day17.Move | src/main/kotlin/io/ysakhno/adventofcode2023/day17/Day17.kt:155-160 | a move goes one block in the chosen direction |
| Day17.MoveCounts | src/main/kotlin/io/ysakhno/adventofcode2023/day17/Day17.kt:155-161 | a turn restarts the straight count at 1, going straight adds one |
| Day17.BorderedAsWritten | src/main/kotlin/io/ysakhno/adventofcode2023/day17/Day17.kt:172-173 | `bordered` as written adds a row of huge losses above and below |
| Day17.Bordered | src/main/kotlin/io/ysakhno/adventofcode2023/day17/Day17.kt:172-173 | the corrected frame adds a row above and below |
| Day17.BorderedBlocks | src/main/kotlin/io/ysakhno/adventofcode2023/day17/Day17.kt:172-181 | every block is found one row down and one column right, the frame rows are huge losses, and the target is the bottom-right block |
| Day17.WideGridTarget | src/main/kotlin/io/ysakhno/adventofcode2023/day17/Day17.kt:172-181 | for the one-row grid `111` the frame as written makes the first block the target; the corrected frame makes it the last |
| Day17.StepStraight | src/main/kotlin/io/ysakhno/adventofcode2023/day17/Day17.kt:190-199 | no walk goes more than three blocks straight (ten for the ultra crucible), and the ultra crucible turns only after four |
| Day17.CostPrefix | src/main/kotlin/io/ysakhno/adventofcode2023/day17/Day17.kt:198 | a prefix of a walk costs no more than the walk, since losses are non-negative |
| Day17.WalkPrefix | src/main/kotlin/io/ysakhno/adventofcode2023/day17/Day17.kt:168 | a prefix of a walk is a walk |
| Day17.Expand | src/main/kotlin/io/ysakhno/adventofcode2023/day17/Day17.kt:196-199 | expanding a position fails exactly when one of its moves would leave the layout |
| Day17.ExtendWalk | src/main/kotlin/io/ysakhno/adventofcode2023/day17/Day17.kt:196-199 | extending a valid entry by a step gives a valid entry with the block's loss added |
| Day17.SuccessorStep | src/main/kotlin/io/ysakhno/adventofcode2023/day17/Day17.kt:196-199 | a successor is the move followed by the loss of the block entered |
| Day17.ExpandEntries | src/main/kotlin/io/ysakhno/adventofcode2023/day17/Day17.kt:196-199 | one successor per allowed direction, in that order |
| Day17.ExpandValid | src/main/kotlin/io/ysakhno/adventofcode2023/day17/Day17.kt:196-199 | every successor of a valid entry is valid and one step further |
| Day17.ExpandCovers | src/main/kotlin/io/ysakhno/adventofcode2023/day17/Day17.kt:196-199 | every allowed move is queued with its loss |
| Day17.FirstOutside | src/main/kotlin/io/ysakhno/adventofcode2023/day17/Day17.kt:186-200 | a walk that ends outside the visited set leaves it at a first position |
| Day17.EntryBelowWalk | src/main/kotlin/io/ysakhno/adventofcode2023/day17/Day17.kt:186-200 | when a walk leaves the visited set, some queued entry costs no more than the walk |
| Day17.QueueBelowWalk | src/main/kotlin/io/ysakhno/adventofcode2023/day17/Day17.kt:186-200 | for every walk to an unvisited position some queued entry costs no more |
| Day17.HeadIsCheapest | src/main/kotlin/io/ysakhno/adventofcode2023/day17/Day17.kt:187-192 | the cheapest queued entry is no dearer than any walk to the target |
| Day17.Removed | src/main/kotlin/io/ysakhno/adventofcode2023/day17/Day17.kt:187 | removing the polled entry keeps the others |
| Day17.SearchSkip | src/main/kotlin/io/ysakhno/adventofcode2023/day17/Day17.kt:189 | skipping a visited position keeps the search invariant |
| Day17.SearchExpand | src/main/kotlin/io/ysakhno/adventofcode2023/day17/Day17.kt:194-199 | expanding the cheapest new position keeps the search invariant |
| Day17.FrontierKept | src/main/kotlin/io/ysakhno/adventofcode2023/day17/Day17.kt:194-199 | the moves of every visited position stay visited or queued with their loss |
| Day17.SearchExhausted | src/main/kotlin/io/ysakhno/adventofcode2023/day17/Day17.kt:202 | an empty queue means no walk reaches the target |
| Day17.MinIndex | src/main/kotlin/io/ysakhno/adventofcode2023/day17/Day17.kt:187 | the polled entry has the least loss in the queue |
| Day17.StartEntries | src/main/kotlin/io/ysakhno/adventofcode2023/day17/Day17.kt:183 | the queue starts with each start at loss 0 |
| Day17.SearchStart | src/main/kotlin/io/ysakhno/adventofcode2023/day17/Day17.kt:183-184 | the start queue with nothing visited satisfies the search invariant |
| Day17.StraightBounds | src/main/kotlin/io/ysakhno/adventofcode2023/day17/Day17.kt:175-203 | the straight counts of the starts lie within the bounds used for termination |
| Day17.StepInUniverse | src/main/kotlin/io/ysakhno/adventofcode2023/day17/Day17.kt:186-200 | every step stays within the finite set of positions, so the search ends |
| Day17.FindShortestPath | src/main/kotlin/io/ysakhno/adventofcode2023/day17/Day17.kt:175-203 | the search returns a cheapest walk to the target, none exactly when no walk reaches it, or fails on a move off the layout |
| Day17.Solve | src/main/kotlin/io/ysakhno/adventofcode2023/day17/Day17.kt:205-215 | the answer is the least heat loss to the target, -1 when unreachable, or a failure at a position no cheaper than any walk to the target |
| Day17.Part1 | src/main/kotlin/io/ysakhno/adventofcode2023/day17/Day17.kt:205-209 | part 1 answers for the normal crucible |
| Day17.Part2 | src/main/kotlin/io/ysakhno/adventofcode2023/day17/Day17.kt:211-215 | part 2 answers for the ultra crucible, accepted only after four straight blocks |
| Day18.Ordinal | src/main/kotlin/io/ysakhno/adventofcode2023/day18/Day18.kt:108 | the four directions have ordinals 0..3 |
| Day18.Entry | src/main/kotlin/io/ysakhno/adventofcode2023/day18/Day18.kt:120 | `Direction.entries[i]` is the direction with ordinal i |
| Day18.Split | src/main/kotlin/io/ysakhno/adventofcode2023/day18/Day18.kt:113 | `split` gives at least one piece and no piece holds the separator |
| Day18.SplitJoin | src/main/kotlin/io/ysakhno/adventofcode2023/day18/Day18.kt:113 | joining the pieces with the separator gives the line back |
| Day18.FirstNamed | src/main/kotlin/io/ysakhno/adventofcode2023/day18/Day18.kt:113 | the direction picked is the first whose name starts with the letter, or none (the `first` failure) |
| Day18.LettersName | src/main/kotlin/io/ysakhno/adventofcode2023/day18/Day18.kt:113 | `R`, `D`, `L` and `U` name the four directions and other letters none |
| Day18.DigitIn | src/main/kotlin/io/ysakhno/adventofcode2023/day18/Day18.kt:117-118 | a digit's value is below the radix |
| Day18.ParseInt | src/main/kotlin/io/ysakhno/adventofcode2023/day18/Day18.kt:113-117 | `toInt` fails on the empty string and on values outside the 32-bit range |
| Day18.ParseDigStep | src/main/kotlin/io/ysakhno/adventofcode2023/day18/Day18.kt:112-113 | a step reads its direction from the first word and its length from the second, and fails on a line with fewer than two words |
| Day18.SubstringAfter | src/main/kotlin/io/ysakhno/adventofcode2023/day18/Day18.kt:116 | the text after the first `#`, or the whole line when there is none |
| Day18.ParseDigStepFixed | src/main/kotlin/io/ysakhno/adventofcode2023/day18/Day18.kt:115-121 | the fixed step succeeds exactly when six characters follow `#`, the first five are hexadecimal and the sixth a digit 0..3; it reads the length from the five and the direction from the sixth |
| Day18.HexExample | src/main/kotlin/io/ysakhno/adventofcode2023/day18/Day18.kt:117 | `70c71` in base 16 is 461937 |
| Day18.SubstringAfterAt | src/main/kotlin/io/ysakhno/adventofcode2023/day18/Day18.kt:116 | the text after the first `#` starts right after its position |
| Day18.CodeExample | src/main/kotlin/io/ysakhno/adventofcode2023/day18/Day18.kt:116 | the code of `R 6 (#70c710)` is `70c710)` |
| Day18.HexLengthExample | src/main/kotlin/io/ysakhno/adventofcode2023/day18/Day18.kt:117 | its length field is 461937 |
| Day18.FixedExample | src/main/kotlin/io/ysakhno/adventofcode2023/day18/Day18.kt:115-121 | the fixed reading of `R 6 (#70c710)` is 461937 to the right |
| Day18.RightStep | src/main/kotlin/io/ysakhno/adventofcode2023/day18/Day18.kt:118-120 | a code whose sixth character is `0` digs to the right |
| Day18.OuterIffClockwise | src/main/kotlin/io/ysakhno/adventofcode2023/day18/Day18.kt:123-127 | a corner is outer exactly when the trench turns clockwise there |
| Day18.Inc | src/main/kotlin/io/ysakhno/adventofcode2023/day18/Day18.kt:135 | the adjustment is -1, 0 or 1, and 1 exactly when both ends of the step are outer corners |
| Day18.Move | src/main/kotlin/io/ysakhno/adventofcode2023/day18/Day18.kt:139-144 | a move keeps the other coordinate and goes the given distance |
| Day18.PointsFrom | src/main/kotlin/io/ysakhno/adventofcode2023/day18/Day18.kt:133-146 | one point per remaining step |
| Day18.PointsFromStep | src/main/kotlin/io/ysakhno/adventofcode2023/day18/Day18.kt:133-146 | each point is the previous one moved by the previous step's length plus its adjustment |
| Day18.PointsShape | src/main/kotlin/io/ysakhno/adventofcode2023/day18/Day18.kt:129-147 | the outline starts at the origin and each next point is the previous one moved by its step |
| Day18.ToPoints | src/main/kotlin/io/ysakhno/adventofcode2023/day18/Day18.kt:129-147 | the loop produces that outline |
| Day18.Half | src/main/kotlin/io/ysakhno/adventofcode2023/day18/Day18.kt:156 | Kotlin's division by two truncates, and the magnitude is half the magnitude |
| Day18.AreaOf | src/main/kotlin/io/ysakhno/adventofcode2023/day18/Day18.kt:149-157 | the area is half the magnitude of the shoelace sum |
| Day18.Area | src/main/kotlin/io/ysakhno/adventofcode2023/day18/Day18.kt:149-157 | the loop computes that area |
| Day18.AreaOfDegenerate | src/main/kotlin/io/ysakhno/adventofcode2023/day18/Day18.kt:149-157 | fewer than three points enclose nothing |
| Day18.RotatePrefix | src/main/kotlin/io/ysakhno/adventofcode2023/day18/Day18.kt:151-155 | starting the shoelace one point later moves the first term to the end |
| Day18.AreaRotationInvariant | src/main/kotlin/io/ysakhno/adventofcode2023/day18/Day18.kt:149-157 | the area does not depend on which corner the outline starts at |
| Day18.RectangleCorners | src/main/kotlin/io/ysakhno/adventofcode2023/day18/Day18.kt:129-147 | a clockwise rectangle plan gives the outer corners of its trench |
| Day18.RectangleArea | src/main/kotlin/io/ysakhno/adventofcode2023/day18/Day18.kt:149-157 | the shoelace area of a w by h rectangle is w * h |
| Day18.ClockwiseRectangle | src/main/kotlin/io/ysakhno/adventofcode2023/day18/Day18.kt:159 | a clockwise rectangle of sides a and b digs (a + 1) * (b + 1) cubic metres, the trench included |
| Day18.ParseAll | src/main/kotlin/io/ysakhno/adventofcode2023/day18/Day18.kt:159-161 | all lines are read, each by the given parser, or the whole fails |
| Day19.IsMet | src/main/kotlin/io/ysakhno/adventofcode2023/day19/Day19.kt:97-99 | a condition on a missing rating is an error (the map lookup throws); when met the rating differs from the bound; when not met it lies on the other side of the bound |
| Day19.SimplifiedRules | src/main/kotlin/io/ysakhno/adventofcode2023/day19/Day19.kt:117-119 | rules that all lead to one destination collapse to a single unconditional rule to it; otherwise the rules are kept |
| Day19.SingleDestination | src/main/kotlin/io/ysakhno/adventofcode2023/day19/Day19.kt:117-119 | the destination set has exactly one element if and only if every rule has the same destination |
| Day19.FirstApplicablePicks | src/main/kotlin/io/ysakhno/adventofcode2023/day19/Day19.kt:177 | the rule picked is the first whose condition is absent or met, and every rule before it has a condition that is not met |
| Day19.SimplifiedRulesSamePick | src/main/kotlin/io/ysakhno/adventofcode2023/day19/Day19.kt:117-119 | collapsing the rules never changes the destination a part is sent to |
| Day19.IsAccepted | src/main/kotlin/io/ysakhno/adventofcode2023/day19/Day19.kt:174-182 | the loop that follows workflows from "in" returns the outcome of the recursive evaluation |
| Day19.EvaluateMoreFuel | src/main/kotlin/io/ysakhno/adventofcode2023/day19/Day19.kt:174-182 | once the evaluation reaches an outcome, more steps do not change it |
| Day19.AssociateBy | src/main/kotlin/io/ysakhno/adventofcode2023/day19/Day19.kt:162 | every workflow's name is a key and every key maps to a workflow of the list with that name |
| Day19.TrivialOnes | src/main/kotlin/io/ysakhno/adventofcode2023/day19/Day19.kt:125 | exactly the workflows with one unconditional rule are kept |
| Day19.EmptyWorkflows | src/main/kotlin/io/ysakhno/adventofcode2023/day19/Day19.kt:125 | the map holds each trivial workflow under its own name and nothing else |
| Day19.Redirect | src/main/kotlin/io/ysakhno/adventofcode2023/day19/Day19.kt:134 | a rewritten rule keeps its condition, and a rule whose destination is not trivial is unchanged |
| Day19.RedirectAll | src/main/kotlin/io/ysakhno/adventofcode2023/day19/Day19.kt:133-135 | the rewritten list has as many rules as the original |
| Day19.RedirectWorkflow | src/main/kotlin/io/ysakhno/adventofcode2023/day19/Day19.kt:131-137 | rewriting a workflow keeps its name |
| Day19.SimplifyRound | src/main/kotlin/io/ysakhno/adventofcode2023/day19/Day19.kt:129-137 | one round drops the trivial workflows and does not add any |
| Day19.SimplifyRoundShrinks | src/main/kotlin/io/ysakhno/adventofcode2023/day19/Day19.kt:128-141 | a round with a trivial workflow present strictly shrinks the list, so the loop ends |
| Day19.SimplifyRoundNames | src/main/kotlin/io/ysakhno/adventofcode2023/day19/Day19.kt:129-137 | no workflow left after a round is one of the trivial ones, and each left had its name before |
| Day19.SimplifyAll | src/main/kotlin/io/ysakhno/adventofcode2023/day19/Day19.kt:123-144 | no trivial workflow remains once the loop ends, and every name left was present in the input |
| Day19.SimplifiedWorkflows | src/main/kotlin/io/ysakhno/adventofcode2023/day19/Day19.kt:123-144 | the while loop computes the recursive simplification |
| Day19.SimplifyEachRules | src/main/kotlin/io/ysakhno/adventofcode2023/day19/Day19.kt:155-161 | every workflow keeps its name and position and gets its collapsed rules |
| Day19.DropsTrivialEntry | src/main/kotlin/io/ysakhno/adventofcode2023/day19/Day19.kt:123-144 | a lone "in" workflow that accepts everything is removed as trivial, after which evaluation fails |
| Day19.ChainAccepts | src/main/kotlin/io/ysakhno/adventofcode2023/day19/Day19.kt:174-182 | the three-workflow chain accepts the sample part when evaluated before simplification |
| Day19.AssociateThree | src/main/kotlin/io/ysakhno/adventofcode2023/day19/Day19.kt:162 | three workflows with distinct names give the map of exactly those three |
| Day19.ChainRulesKept | src/main/kotlin/io/ysakhno/adventofcode2023/day19/Day19.kt:117-119 | collapsing the chain's rules changes nothing |
| Day19.ChainEmpty | src/main/kotlin/io/ysakhno/adventofcode2023/day19/Day19.kt:125 | the chain's trivial workflows are its second and third |
| Day19.ChainEntryRedirected | src/main/kotlin/io/ysakhno/adventofcode2023/day19/Day19.kt:131-137 | rewriting the entry workflow sends it to the second trivial workflow, which is removed in the same round |
| Day19.ChainRound | src/main/kotlin/io/ysakhno/adventofcode2023/day19/Day19.kt:129-137 | one round leaves only the rewritten entry workflow |
| Day19.ChainPrepared | src/main/kotlin/io/ysakhno/adventofcode2023/day19/Day19.kt:123-144 | the prepared map holds only the rewritten entry |
| Day19.PreparedInOneRound | src/main/kotlin/io/ysakhno/adventofcode2023/day19/Day19.kt:123-144 | a round that leaves one non-trivial workflow ends the loop with that workflow alone |
| Day19.LeavesDanglingRedirect | src/main/kotlin/io/ysakhno/adventofcode2023/day19/Day19.kt:123-144 | the chain accepts a part before simplification and fails on the redirect to a removed workflow after it |
| Day19.ChainDangles | src/main/kotlin/io/ysakhno/adventofcode2023/day19/Day19.kt:174-182 | evaluating the rewritten entry alone fails on the missing workflow |
| Day19.RedirectAllPicks | src/main/kotlin/io/ysakhno/adventofcode2023/day19/Day19.kt:133-135 | the rule picked after rewriting is the rewritten picked rule, and an error stays an error |
| Day19.RedirectWorkflowPicks | src/main/kotlin/io/ysakhno/adventofcode2023/day19/Day19.kt:131-137 | a rewritten workflow sends a part to the rewritten destination of the rule it picked before |
| Day19.RemoveTrivial | src/main/kotlin/io/ysakhno/adventofcode2023/day19/Day19.kt:129-137 | removing one trivial workflow drops exactly its name and rewrites every remaining workflow's rules |
| Day19.SelfForwardUndecided | src/main/kotlin/io/ysakhno/adventofcode2023/day19/Day19.kt:174-182 | a trivial workflow that forwards to itself never reaches a verdict |
| Day19.RemoveTrivialPreserves | src/main/kotlin/io/ysakhno/adventofcode2023/day19/Day19.kt:129-137 | removing one trivial workflow other than the start leaves every decided outcome unchanged |
| Day19.PassThroughRemoved | src/main/kotlin/io/ysakhno/adventofcode2023/day19/Day19.kt:131-137 | evaluating at the trivial workflow's destination after its removal gives the outcome it had |
| Day19.Removable | src/main/kotlin/io/ysakhno/adventofcode2023/day19/Day19.kt:125 | the workflow chosen for removal exists, is trivial and is not the entry |
| Day19.SimplifyKeepingEntry | src/main/kotlin/io/ysakhno/adventofcode2023/day19/Day19.kt:123-144 | the corrected simplification keeps only existing names, keeps "in", and leaves no removable workflow |
| Day19.SimplifyKeepingEntryPreserves | src/main/kotlin/io/ysakhno/adventofcode2023/day19/Day19.kt:123-144 | the corrected simplification keeps the decided outcome of every part |
| Day19.SimplifyRulesIn | src/main/kotlin/io/ysakhno/adventofcode2023/day19/Day19.kt:155-161 | the map keeps its keys and every workflow gets its collapsed rules |
| Day19.SimplifyRulesInPreserves | src/main/kotlin/io/ysakhno/adventofcode2023/day19/Day19.kt:117-119 | collapsing the rules keeps every decided outcome |
| Day19.AssociateBySimplified | src/main/kotlin/io/ysakhno/adventofcode2023/day19/Day19.kt:155-162 | collapsing rules before or after building the map gives the same map |
| Day19.SimplifyRulesInUpdate | src/main/kotlin/io/ysakhno/adventofcode2023/day19/Day19.kt:155-162 | collapsing commutes with replacing one workflow of the map |
| Day19.PrepareWorkflowsCorrectedPreserves | src/main/kotlin/io/ysakhno/adventofcode2023/day19/Day19.kt:146-172 | the corrected preparation gives every part the outcome it has in the unsimplified workflows |
| Day19.AcceptedRatings | src/main/kotlin/io/ysakhno/adventofcode2023/day19/Day19.kt:184-187 | the sum of accepted ratings exists exactly when every part is accepted or rejected |
| Day19.Part1Unchanged | src/main/kotlin/io/ysakhno/adventofcode2023/day19/Day19.kt:184-187 | when every part is decided and no workflow is named "A" or "R", the sum of accepted ratings is the one from the unsimplified map |
| Day19.AcceptedRatingsSame | src/main/kotlin/io/ysakhno/adventofcode2023/day19/Day19.kt:184-187 | maps that give every part the same outcome give the same sum of accepted ratings |
| Day19.PossibilitiesCount | src/main/kotlin/io/ysakhno/adventofcode2023/day19/Day19.kt:190-193 | the product of the four allowed-value counts equals the number of rating combinations inside the subrange |
| Day19.IndicatorIndicates | src/main/kotlin/io/ysakhno/adventofcode2023/day19/Day19.kt:190-193 | the subrange's indicator is one exactly on the combinations its four truth arrays allow |
| Day19.ProductRegrouped | src/main/kotlin/io/ysakhno/adventofcode2023/day19/Day19.kt:190-193 | the source's left-to-right product equals the product grouped from the right |
| Day19.PartOf | src/main/kotlin/io/ysakhno/adventofcode2023/day19/Day19.kt:89 | a rating combination gives a machine part with exactly the four ratings x, m, a and s |
| Day19.Restrict | src/main/kotlin/io/ysakhno/adventofcode2023/day19/Day19.kt:201-203 | restricting a truth array keeps its length |
| Day19.SubdivideBy | src/main/kotlin/io/ysakhno/adventofcode2023/day19/Day19.kt:195-211 | the loop over the ratings computes the two subranges of the split |
| Day19.SubdivideSplits | src/main/kotlin/io/ysakhno/adventofcode2023/day19/Day19.kt:195-211 | the two subranges partition the subrange, the condition is met on the first and not met on the second, and their sizes add up |
| Day19.SubdivideSizes | src/main/kotlin/io/ysakhno/adventofcode2023/day19/Day19.kt:195-211 | the sizes of the two subranges add up to the size of the subrange |
| Day19.ComputePossibilities | src/main/kotlin/io/ysakhno/adventofcode2023/day19/Day19.kt:223-243 | the count never exceeds the size of the subrange |
| Day19.ComputePossibilitiesCounts | src/main/kotlin/io/ysakhno/adventofcode2023/day19/Day19.kt:223-243 | the count is the number of rating combinations in the subrange that the rules accept |
| Day19.CountsUnconditional | src/main/kotlin/io/ysakhno/adventofcode2023/day19/Day19.kt:226-232 | an unconditional first rule counts the accepted combinations |
| Day19.AllAccepted | src/main/kotlin/io/ysakhno/adventofcode2023/day19/Day19.kt:226-232 | a first rule that accepts unconditionally accepts every combination in the subrange |
| Day19.AllRejected | src/main/kotlin/io/ysakhno/adventofcode2023/day19/Day19.kt:226-232 | a first rule that rejects unconditionally accepts no combination |
| Day19.AllJump | src/main/kotlin/io/ysakhno/adventofcode2023/day19/Day19.kt:226-232 | an unconditional jump accepts the combinations the destination workflow accepts |
| Day19.CountsConditional | src/main/kotlin/io/ysakhno/adventofcode2023/day19/Day19.kt:234-240 | a conditional first rule counts the accepted combinations |
| Day19.CountsConditionalStop | src/main/kotlin/io/ysakhno/adventofcode2023/day19/Day19.kt:234-240 | a conditional accept or reject counts the accepted combinations |
| Day19.CountsConditionalJump | src/main/kotlin/io/ysakhno/adventofcode2023/day19/Day19.kt:234-240 | a conditional jump counts the accepted combinations |
| Day19.CountsOtherHalf | src/main/kotlin/io/ysakhno/adventofcode2023/day19/Day19.kt:234-240 | for a conditional jump, the count of the rest matches the accepted combinations up to the jump's own half |
| Day19.JumpValue | src/main/kotlin/io/ysakhno/adventofcode2023/day19/Day19.kt:234-240 | a conditional jump's count is the destination's count on the met half plus the rest's count on the other half |
| Day19.ConditionalValue | src/main/kotlin/io/ysakhno/adventofcode2023/day19/Day19.kt:234-240 | for a conditional rule the count is split between the met half and the unmet half according to the destination |
| Day19.SplitPicks | src/main/kotlin/io/ysakhno/adventofcode2023/day19/Day19.kt:234-240 | on the met half the first rule is picked, on the unmet half the rest of the rules decide, and the halves partition the subrange |
| Day19.SplitRejected | src/main/kotlin/io/ysakhno/adventofcode2023/day19/Day19.kt:234-240 | a conditional reject leaves only the accepted combinations of the unmet half |
| Day19.SplitAccepted | src/main/kotlin/io/ysakhno/adventofcode2023/day19/Day19.kt:234-240 | a conditional accept counts the whole met half plus the accepted combinations of the unmet half |
| Day19.SplitJump | src/main/kotlin/io/ysakhno/adventofcode2023/day19/Day19.kt:234-240 | a conditional jump counts the destination's accepted combinations on the met half and the rest's on the unmet half |
| Day19.InitialSubrange | src/main/kotlin/io/ysakhno/adventofcode2023/day19/Day19.kt:214-221 | the initial subrange is valid and has the given width |
| Day19.CountAllButFirst | src/main/kotlin/io/ysakhno/adventofcode2023/day19/Day19.kt:214-221 | a truth array that is false only at index 0 has k-1 true entries among its first k |
| Day19.InitialPossibilities | src/main/kotlin/io/ysakhno/adventofcode2023/day19/Day19.kt:214-221 | the initial subrange holds n to the fourth combinations, with ratings from 1 to n |
| Day19.PossibilitiesFromIn | src/main/kotlin/io/ysakhno/adventofcode2023/day19/Day19.kt:245-246 | the count from "in" is at most n to the fourth |
| Day19.PossibilitiesFromInCounts | src/main/kotlin/io/ysakhno/adventofcode2023/day19/Day19.kt:245-246 | the count from "in" is the number of rating combinations from 1 to n that the workflows accept |
| Day19.FromInAgrees | src/main/kotlin/io/ysakhno/adventofcode2023/day19/Day19.kt:245-246 | the combinations accepted from the rules of "in" are the ones accepted by evaluating from "in" |
| RatingSums.SumAllSplits | src/main/kotlin/io/ysakhno/adventofcode2023/day19/Day19.kt:190-193 | a sum over the box of combinations is additive |
| RatingSums.SumAllZero | src/main/kotlin/io/ysakhno/adventofcode2023/day19/Day19.kt:190-193 | a function that is zero on the box sums to zero |
| RatingSums.SumAllSame | src/main/kotlin/io/ysakhno/adventofcode2023/day19/Day19.kt:190-193 | functions that agree on the box have the same sum |
| RatingSums.SumAllBox | src/main/kotlin/io/ysakhno/adventofcode2023/day19/Day19.kt:190-193 | the indicator of a box of allowed values sums to the product of the four counts of allowed values |
| Day20.Pulses | src/main/kotlin/io/ysakhno/adventofcode2023/day20/Day20.kt:178-179 | one pulse of the given level from the module to each output, in the order of the outputs |
| Day20.Module.constructor | src/main/kotlin/io/ysakhno/adventofcode2023/day20/Day20.kt:170-217 | a new module has the given name, kind and outputs, is off, remembers no input and is not activated |
| Day20.Module.Press | src/main/kotlin/io/ysakhno/adventofcode2023/day20/Day20.kt:203 | the button is named "<button>" and has the broadcaster as its only output |
| Day20.Module.AddInput | src/main/kotlin/io/ysakhno/adventofcode2023/day20/Day20.kt:173-196 | a conjunction starts remembering a low pulse from the new input; every other kind is unchanged |
| Day20.Module.Process | src/main/kotlin/io/ysakhno/adventofcode2023/day20/Day20.kt:180-216 | a module's new state and the pulses it sends are what its kind's response gives, and every pulse goes from it to one of its outputs |
| Day20.FlipFlopIgnoresHigh | src/main/kotlin/io/ysakhno/adventofcode2023/day20/Day20.kt:180-183 | a flip-flop ignores a high pulse: no state change and nothing sent |
| Day20.FlipFlopTogglesOnLow | src/main/kotlin/io/ysakhno/adventofcode2023/day20/Day20.kt:180-183 | on a low pulse a flip-flop flips its state and sends to every output a pulse that is high exactly when it is now on |
| Day20.ConjunctionRemembers | src/main/kotlin/io/ysakhno/adventofcode2023/day20/Day20.kt:190-193 | a conjunction records the sender's level, keeps the rest of its memory, and sends low to every output exactly when all remembered levels are high |
| Day20.BroadcastForwards | src/main/kotlin/io/ysakhno/adventofcode2023/day20/Day20.kt:200 | the broadcaster sends the level it received to every output |
| Day20.ButtonSendsOneLow | src/main/kotlin/io/ysakhno/adventofcode2023/day20/Day20.kt:204 | the button sends one low pulse to the broadcaster |
| Day20.ReceiverLatches | src/main/kotlin/io/ysakhno/adventofcode2023/day20/Day20.kt:209-212 | rx sends nothing and becomes activated once it gets a low pulse, staying so |
| Day20.CountLowAppend | src/main/kotlin/io/ysakhno/adventofcode2023/day20/Day20.kt:228 | the number of low pulses in two lists of pulses adds up |
| Day20.Handle | src/main/kotlin/io/ysakhno/adventofcode2023/day20/Day20.kt:167 | sending a pulse changes the memory of its target only, and every pulse it answers with goes from the target to one of the target's outputs |
| Day20.Propagate | src/main/kotlin/io/ysakhno/adventofcode2023/day20/Day20.kt:226-230 | the run keeps the same modules in the network, records one list of answers per handled pulse, and handles at most `fuel` pulses |
| Day20.PropagateStep | src/main/kotlin/io/ysakhno/adventofcode2023/day20/Day20.kt:226-230 | one turn of the queue: the first pulse is answered and its answers join the back of the rest of the queue |
| Day20.PropagateInOrder | src/main/kotlin/io/ysakhno/adventofcode2023/day20/Day20.kt:226-230 | first sent, first handled: the handled pulses are the queue followed by the answers in the order they were given, all of them when the queue empties; a run that does not settle has used all of its fuel |
| Day20.PropagateTrace | src/main/kotlin/io/ysakhno/adventofcode2023/day20/Day20.kt:226-230 | every handled pulse is answered by its target in the memories left by the pulse before it, from the memories at the start to those at the end |
| Day20.PropagateCounts | src/main/kotlin/io/ysakhno/adventofcode2023/day20/Day20.kt:228 | the run's low count is the number of low pulses it handled, and its low and high counts add up to all the pulses it handled |
| Day20.HandleKeepsLatch | src/main/kotlin/io/ysakhno/adventofcode2023/day20/Day20.kt:209-212 | answering a pulse never clears the receiver's latch |
| Day20.PropagateKeepsLatch | src/main/kotlin/io/ysakhno/adventofcode2023/day20/Day20.kt:209-212 | no run of the queue clears the receiver's latch |
| Day20.Deliver | src/main/kotlin/io/ysakhno/adventofcode2023/day20/Day20.kt:167 | delivering a pulse changes the modules exactly as `Handle` says on their current memories and outputs, and returns the target's answers |
| Day20.Poll | src/main/kotlin/io/ysakhno/adventofcode2023/day20/Day20.kt:226-229 | one turn of the loop counts the polled pulse as low or high, delivers it and queues its answers; what is left of the run from there, added to the counts so far, is still the whole run |
| Day20.Drain | src/main/kotlin/io/ysakhno/adventofcode2023/day20/Day20.kt:226-230 | the loop leaves the modules in the memories `Propagate` reaches from the queue, and its counts and whether the queue emptied are that run's |
| Day20.PressAndCount | src/main/kotlin/io/ysakhno/adventofcode2023/day20/Day20.kt:221-233 | pressing the button handles the queue that starts with the button's single low pulse, from the memories before the press: the modules end in that run's memories, the low count is the number of low pulses handled and the two counts add up to all pulses handled; the wiring stays and no latch is cleared |
| Day20.Resolve | src/main/kotlin/io/ysakhno/adventofcode2023/day20/Day20.kt:271 | every output is replaced by the declared module of the same name when there is one, and kept otherwise |
| Day20.RegisterAsInput | src/main/kotlin/io/ysakhno/adventofcode2023/day20/Day20.kt:271 | every output registers the module as an input, and remembered low inputs are kept |
| Day20.WireOne | src/main/kotlin/io/ysakhno/adventofcode2023/day20/Day20.kt:270-272 | wiring one more declared module resolves its outputs and registers it with them, leaving the ones not yet reached unchanged |
| Day20.WireOutputs | src/main/kotlin/io/ysakhno/adventofcode2023/day20/Day20.kt:270-272 | after wiring, every declared module's outputs are resolved by name and every output has it as an input |
| Day20.PressesNext | src/main/kotlin/io/ysakhno/adventofcode2023/day20/Day20.kt:279-282 | one more press adds the low and the high pulses of its run to the totals and leaves the memories that run reaches |
| Day20.PressesStopped | src/main/kotlin/io/ysakhno/adventofcode2023/day20/Day20.kt:279-282 | once a press has not settled, later presses change nothing |
| Day20.SettledCountsFirst | src/main/kotlin/io/ysakhno/adventofcode2023/day20/Day20.kt:224-228 | a queue that starts with a low pulse and empties has counted at least that pulse as low |
| Day20.PressCountsButton | src/main/kotlin/io/ysakhno/adventofcode2023/day20/Day20.kt:279-282 | a settled press adds at least one to the low total |
| Day20.PressesCountButton | src/main/kotlin/io/ysakhno/adventofcode2023/day20/Day20.kt:277-284 | after `n` presses that all settle, at least `n` low pulses have been counted |
| Day20.PressOnce | src/main/kotlin/io/ysakhno/adventofcode2023/day20/Day20.kt:279-282 | one step of the fold: the totals after one more press are the previous totals plus that press's counts, and the modules hold the memories that press leaves |
| Day20.Part1 | src/main/kotlin/io/ysakhno/adventofcode2023/day20/Day20.kt:277-284 | the totals are those of a thousand successive presses from the starting memories, each adding its low and its high pulses; the answer is their product, with at least one low pulse per press; `None` exactly when some press does not settle within `fuel` pulses |
| Day21.Around | src/main/kotlin/io/ysakhno/adventofcode2023/day21/Day21.kt:169-177 | the four cells looked at are exactly the cells one step up, down, left or right |
| Day21.PlotsAmongKeeps | src/main/kotlin/io/ysakhno/adventofcode2023/day21/Day21.kt:171-176 | keeping the garden plots among the candidates keeps exactly those that are plots, adds no duplicate and never grows the list |
| Day21.Neighbours | src/main/kotlin/io/ysakhno/adventofcode2023/day21/Day21.kt:169-177 | the neighbour lookup fails, as the out-of-bounds index does, exactly when a side of the cell lies off the map |
| Day21.NeighboursAdjacent | src/main/kotlin/io/ysakhno/adventofcode2023/day21/Day21.kt:169-177 | the neighbours are exactly the adjacent garden plots, at most four and without repeats |
| Day21.FlatNeighbours | src/main/kotlin/io/ysakhno/adventofcode2023/day21/Day21.kt:180 | the flat map of neighbours fails exactly when some point has a side off the map |
| Day21.FlatNeighboursUnion | src/main/kotlin/io/ysakhno/adventofcode2023/day21/Day21.kt:180 | a point is in the flat map exactly when it neighbours some point of the set |
| Day21.Step | src/main/kotlin/io/ysakhno/adventofcode2023/day21/Day21.kt:180 | one step fails exactly when some point has a side off the map, and gives a set without repeats |
| Day21.StepUnion | src/main/kotlin/io/ysakhno/adventofcode2023/day21/Day21.kt:180 | after one step the set is exactly the plots adjacent to a point of the previous set |
| Day21.Roam | src/main/kotlin/io/ysakhno/adventofcode2023/day21/Day21.kt:179-180 | the set reached after n steps has no repeats |
| Day21.RoamCount | src/main/kotlin/io/ysakhno/adventofcode2023/day21/Day21.kt:179-180 | the answer is the size of the set reached, and fails exactly when the roaming fails |
| Day21.RoamZero | src/main/kotlin/io/ysakhno/adventofcode2023/day21/Day21.kt:179-180 | with no steps the only point reached is the start |
| Day21.WalkExtend | src/main/kotlin/io/ysakhno/adventofcode2023/day21/Day21.kt:179-180 | a walk over plots extended by an adjacent plot is still a walk |
| Day21.RoamStep | src/main/kotlin/io/ysakhno/adventofcode2023/day21/Day21.kt:179-180 | the set after k steps is the plots adjacent to the set after k-1 steps |
| Day21.RoamPredecessor | src/main/kotlin/io/ysakhno/adventofcode2023/day21/Day21.kt:179-180 | every point reached in k steps has an adjacent point reached in k-1 steps |
| Day21.ReachExtend | src/main/kotlin/io/ysakhno/adventofcode2023/day21/Day21.kt:179-180 | a point reachable in k-1 steps extends to each adjacent plot in k steps |
| Day21.ReachPredecessor | src/main/kotlin/io/ysakhno/adventofcode2023/day21/Day21.kt:179-180 | a walk of k steps ends next to the end of a walk of k-1 steps |
| Day21.RoamSound | src/main/kotlin/io/ysakhno/adventofcode2023/day21/Day21.kt:179-180 | every point the fold reaches after k steps ends a walk of exactly k steps over plots from the start |
| Day21.RoamComplete | src/main/kotlin/io/ysakhno/adventofcode2023/day21/Day21.kt:179-180 | every end of a walk of exactly k steps over plots is in the set the fold reaches |
| Day21.RoamReaches | src/main/kotlin/io/ysakhno/adventofcode2023/day21/Day21.kt:179-180 | the set after k steps is exactly the ends of the k-step walks from the start |
| Day21.BackAndForth | src/main/kotlin/io/ysakhno/adventofcode2023/day21/Day21.kt:179-180 | a point reachable in k steps is reachable in k+2, by stepping back and forth |
| Day21.Bordered | src/main/kotlin/io/ysakhno/adventofcode2023/day21/Day21.kt:192 | framing the map adds a row above and below |
| Day21.BorderedCells | src/main/kotlin/io/ysakhno/adventofcode2023/day21/Day21.kt:192 | every cell of the map is found one row down and one column right in the framed map |
| Day21.BorderedCell | src/main/kotlin/io/ysakhno/adventofcode2023/day21/Day21.kt:192 | a framed row is two cells wider and keeps the cell shifted by one |
| Day21.PlotInside | src/main/kotlin/io/ysakhno/adventofcode2023/day21/Day21.kt:192 | every plot of the framed map lies inside the frame |
| Day21.InsideSurrounded | src/main/kotlin/io/ysakhno/adventofcode2023/day21/Day21.kt:192 | every cell inside the frame has all four sides on the framed map |
| Day21.FramedStep | src/main/kotlin/io/ysakhno/adventofcode2023/day21/Day21.kt:180-192 | on a framed map a step from inside cells never fails and stays inside |
| Day21.FramedRoamDefined | src/main/kotlin/io/ysakhno/adventofcode2023/day21/Day21.kt:180-192 | on a framed map roaming from an inside start never fails and stays inside |
| Day21.CornerStartFails | src/main/kotlin/io/ysakhno/adventofcode2023/day21/Day21.kt:183-194 | with the default corner start, taken when the map has no 'S', any step fails on an index |
| Day21.StartOf | src/main/kotlin/io/ysakhno/adventofcode2023/day21/Day21.kt:183-190 | the start is (0, 0) or points, shifted by one for the frame, at an 'S' of the map |
| Day21.StartOfLocates | src/main/kotlin/io/ysakhno/adventofcode2023/day21/Day21.kt:183-190 | the start is the first 'S' of the last row holding one, shifted by one for the frame, or the corner when there is none |
| Day21.FindStart | src/main/kotlin/io/ysakhno/adventofcode2023/day21/Day21.kt:183-190 | the loop over rows finds the start the search defines |
| Day21.Unmark | src/main/kotlin/io/ysakhno/adventofcode2023/day21/Day21.kt:192 | 'S' becomes '.', every other cell is kept |
| Day21.WithoutStart | src/main/kotlin/io/ysakhno/adventofcode2023/day21/Day21.kt:192 | every row is unmarked and the number of rows is kept |
| Day21.GardenOf | src/main/kotlin/io/ysakhno/adventofcode2023/day21/Day21.kt:192 | the framed garden is two rows taller and two cells wider, and holds every cell of the map one row down and one column right, with 'S' made a plot |
| Day21.Part1 | src/main/kotlin/io/ysakhno/adventofcode2023/day21/Day21.kt:182-195 | part 1 counts the plots reached from the start in the requested number of steps; a number that is not positive is an empty range of steps and counts the start alone |
| Day21.StartOfCell | src/main/kotlin/io/ysakhno/adventofcode2023/day21/Day21.kt:183-190 | when some row has an 'S', the start points at an 'S' |
| Day21.StartIsPlot | src/main/kotlin/io/ysakhno/adventofcode2023/day21/Day21.kt:183-192 | when some row has an 'S', the start is a plot of the framed map |
| Day21.WithoutStartRectangular | src/main/kotlin/io/ysakhno/adventofcode2023/day21/Day21.kt:192 | unmarking keeps a rectangular map rectangular with the same width |
| Day21.Part1Defined | src/main/kotlin/io/ysakhno/adventofcode2023/day21/Day21.kt:182-195 | on a rectangular map with an 'S' part 1 always gets a count |
| Day22.MoveDown | src/main/kotlin/io/ysakhno/adventofcode2023/day22/Day22.kt:174 | moving a brick down keeps its footprint and its height and lowers it by the distance; a valid brick stays valid |
| Day22.SupportedByColumn | src/main/kotlin/io/ysakhno/adventofcode2023/day22/Day22.kt:179-180 | a brick rests on another exactly when it starts one level above the other's top and the two share a column |
| Day22.InsertByZ1 | src/main/kotlin/io/ysakhno/adventofcode2023/day22/Day22.kt:171 | inserting by lowest level adds exactly the one brick |
| Day22.InsertSorted | src/main/kotlin/io/ysakhno/adventofcode2023/day22/Day22.kt:171 | inserting into a list sorted by lowest level keeps it sorted |
| Day22.SortByZ1 | src/main/kotlin/io/ysakhno/adventofcode2023/day22/Day22.kt:231 | `sorted()` gives a permutation of the bricks ordered by lowest level |
| Day22.MaxCorners | src/main/kotlin/io/ysakhno/adventofcode2023/day22/Day22.kt:210-223 | the field's extent is the largest x2 and y2 of the bricks, and each is attained |
| Day22.SupportingField | src/main/kotlin/io/ysakhno/adventofcode2023/day22/Day22.kt:210-224 | the field has one row per y up to the largest y2 and one column per x up to the largest x2, all at height zero |
| Day22.Update | src/main/kotlin/io/ysakhno/adventofcode2023/day22/Day22.kt:202-208 | the columns under the brick get its top level and every other column is unchanged |
| Day22.LandOn | src/main/kotlin/io/ysakhno/adventofcode2023/day22/Day22.kt:176-177 | a brick lands one level above the highest column under its footprint, keeping its footprint and height |
| Day22.RowTopBounds | src/main/kotlin/io/ysakhno/adventofcode2023/day22/Day22.kt:177 | the row maximum bounds every column it looks at and is one of them |
| Day22.AreaTopBounds | src/main/kotlin/io/ysakhno/adventofcode2023/day22/Day22.kt:176-177 | the area maximum bounds every column under the brick and is one of them |
| Day22.DistanceToFall | src/main/kotlin/io/ysakhno/adventofcode2023/day22/Day22.kt:176-177 | after dropping by the distance the brick's bottom lies one level above the highest column under it: no column under it is higher, and one reaches exactly that level |
| Day22.Settled | src/main/kotlin/io/ysakhno/adventofcode2023/day22/Day22.kt:234 | landing the bricks in order gives one landed brick per brick |
| Day22.RowTopAgrees | src/main/kotlin/io/ysakhno/adventofcode2023/day22/Day22.kt:177 | the highest column of a row read from the field is the one the landed bricks define |
| Day22.AreaTopAgrees | src/main/kotlin/io/ysakhno/adventofcode2023/day22/Day22.kt:176-177 | the highest column under a footprint read from the field is the one the landed bricks define |
| Day22.Settle | src/main/kotlin/io/ysakhno/adventofcode2023/day22/Day22.kt:234 | the loop that drops and records each brick gives the landed bricks, and the field ends up holding their surface |
| Day22.SurfaceFrom | src/main/kotlin/io/ysakhno/adventofcode2023/day22/Day22.kt:202-208 | a column's height is zero or the top of the last landed brick over it |
| Day22.RowTopOfBounds | src/main/kotlin/io/ysakhno/adventofcode2023/day22/Day22.kt:177 | every column of a row is at most the row's highest |
| Day22.AreaTopOfBounds | src/main/kotlin/io/ysakhno/adventofcode2023/day22/Day22.kt:176-177 | every column under a footprint is at most the highest one |
| Day22.RowTopOfAttained | src/main/kotlin/io/ysakhno/adventofcode2023/day22/Day22.kt:177 | the row's highest column is attained by one of its columns |
| Day22.AreaTopOfAttained | src/main/kotlin/io/ysakhno/adventofcode2023/day22/Day22.kt:176-177 | the highest column under a footprint is attained by one of its columns |
| Day22.SettledAt | src/main/kotlin/io/ysakhno/adventofcode2023/day22/Day22.kt:234 | each brick lands on the bricks landed before it, and later ones do not change earlier ones |
| Day22.RestsOnGroundOrBrick | src/main/kotlin/io/ysakhno/adventofcode2023/day22/Day22.kt:176-180 | every landed brick rests on the ground or on a brick that landed before it |
| Day22.SurfaceIsTop | src/main/kotlin/io/ysakhno/adventofcode2023/day22/Day22.kt:202-208 | a column's height is at least the top of every landed brick over it |
| Day22.NoOverlap | src/main/kotlin/io/ysakhno/adventofcode2023/day22/Day22.kt:176-208 | of two landed bricks sharing a column, the later one lies wholly above the earlier one |
| Day22.AboveGround | src/main/kotlin/io/ysakhno/adventofcode2023/day22/Day22.kt:176-177 | every landed brick starts at level one or above |
| Day22.SupportersOf | src/main/kotlin/io/ysakhno/adventofcode2023/day22/Day22.kt:227 | exactly the given bricks that the brick rests on are kept |
| Day22.Without | src/main/kotlin/io/ysakhno/adventofcode2023/day22/Day22.kt:226 | list minus set keeps exactly the bricks not in the set, in order |
| Day22.SoleSupporterEarlier | src/main/kotlin/io/ysakhno/adventofcode2023/day22/Day22.kt:226-227 | a brick's only supporter is a brick of the list that it rests on |
| Day22.SoleSupports | src/main/kotlin/io/ysakhno/adventofcode2023/day22/Day22.kt:226-228 | every sole support is a brick of the list on which some brick rests |
| Day22.SoleSupportsIff | src/main/kotlin/io/ysakhno/adventofcode2023/day22/Day22.kt:226-228 | a brick is a sole support exactly when some brick rests on it alone among the bricks before it |
| Day22.DisintegratableIff | src/main/kotlin/io/ysakhno/adventofcode2023/day22/Day22.kt:226-228 | a brick can be taken out exactly when it is no brick's only support among the bricks before that brick |
| Day22.SoleSupportsAll | src/main/kotlin/io/ysakhno/adventofcode2023/day22/Day22.kt:226-228 | a brick is a sole support exactly when it is some brick's entire list of supporters |
| Day22.Disintegratable | src/main/kotlin/io/ysakhno/adventofcode2023/day22/Day22.kt:226-228 | the result is no longer than the list, and holds exactly the bricks of the list that are no brick's entire list of supporters |
| Day22.DisintegratableSafe | src/main/kotlin/io/ysakhno/adventofcode2023/day22/Day22.kt:226-228 | a brick that can be taken out and supports another shares that support with at least one more brick |
| Day22.SoleSupportAt | src/main/kotlin/io/ysakhno/adventofcode2023/day22/Day22.kt:226-228 | a brick that is the only support of some brick is a sole support |
| Day22.SupportersEarlier | src/main/kotlin/io/ysakhno/adventofcode2023/day22/Day22.kt:226-227 | in a list sorted by lowest level, every brick that supports another comes before it |
| Day22.Part1 | src/main/kotlin/io/ysakhno/adventofcode2023/day22/Day22.kt:230-238 | part 1 counts the landed bricks, sorted again, that can be taken out |
| Day22.SettledDistinct | src/main/kotlin/io/ysakhno/adventofcode2023/day22/Day22.kt:234 | landed bricks are pairwise distinct |
| Day22.Ground | src/main/kotlin/io/ysakhno/adventofcode2023/day22/Day22.kt:240 | the ground brick lies at level 0 and covers every column of the field up to the given sizes |
| Day22.GroundUnder | src/main/kotlin/io/ysakhno/adventofcode2023/day22/Day22.kt:258 | the ground lies at level 0 and covers every column any well-formed brick covers |
| Day22.Stack | src/main/kotlin/io/ysakhno/adventofcode2023/day22/Day22.kt:257-259 | the stack is sorted by lowest level, one longer than the input, and a permutation of the landed bricks plus the ground |
| Day22.LandedAndGroundDistinct | src/main/kotlin/io/ysakhno/adventofcode2023/day22/Day22.kt:240-258 | the ground brick at level zero differs from every landed brick |
| Day22.LowestFirst | src/main/kotlin/io/ysakhno/adventofcode2023/day22/Day22.kt:259 | after sorting, the ground brick comes first |
| Day22.StackShape | src/main/kotlin/io/ysakhno/adventofcode2023/day22/Day22.kt:253-259 | the sorted stack has no repeats and starts with the ground under the field |
| Day22.SupportedOn | src/main/kotlin/io/ysakhno/adventofcode2023/day22/Day22.kt:245 | exactly the later bricks that rest on the brick are kept |
| Day22.SupportGraph | src/main/kotlin/io/ysakhno/adventofcode2023/day22/Day22.kt:244-247 | the graph has a node for every brick, and every brick it lists is one of the stack |
| Day22.SupportGraphAt | src/main/kotlin/io/ysakhno/adventofcode2023/day22/Day22.kt:244-247 | each brick's entry lists the later bricks resting on it |
| Day22.ReachStep | src/main/kotlin/io/ysakhno/adventofcode2023/day22/Day22.kt:187-192 | a brick reachable without the removed one extends to each brick it supports, other than the removed one |
| Day22.ChainVisited | src/main/kotlin/io/ysakhno/adventofcode2023/day22/Day22.kt:187-192 | a closed visited set holding the start of a chain avoiding the removed brick holds the whole chain |
| Day22.ExploredAll | src/main/kotlin/io/ysakhno/adventofcode2023/day22/Day22.kt:187-194 | once the queue is empty, the count is the number of bricks reachable from the start without the removed one |
| Day22.CountReachableWithout | src/main/kotlin/io/ysakhno/adventofcode2023/day22/Day22.kt:182-195 | the breadth-first search counts exactly the bricks reachable from the start without passing the removed one |
| Day22.SearchStart | src/main/kotlin/io/ysakhno/adventofcode2023/day22/Day22.kt:183-185 | the search starts with the start queued and only the removed brick visited |
| Day22.SearchSkip | src/main/kotlin/io/ysakhno/adventofcode2023/day22/Day22.kt:189 | a brick already visited is skipped and the search invariant holds |
| Day22.SearchStep | src/main/kotlin/io/ysakhno/adventofcode2023/day22/Day22.kt:189-191 | visiting a new brick queues what it supports, counts it, and brings the search closer to its end |
| Day22.Falling | src/main/kotlin/io/ysakhno/adventofcode2023/day22/Day22.kt:250 | the bricks other than the removed one split into those still reached from the ground and those that fall |
| Day22.FallingCount | src/main/kotlin/io/ysakhno/adventofcode2023/day22/Day22.kt:250 | the number of bricks that fall when one is taken out is the total less one less the number still reachable from the ground |
| Day22.DistinctCount | src/main/kotlin/io/ysakhno/adventofcode2023/day22/Day22.kt:250 | a list without repeats has as many distinct bricks as entries |
| Day22.NumOfBricksThatWouldFall | src/main/kotlin/io/ysakhno/adventofcode2023/day22/Day22.kt:242-251 | the sum over the bricks after the ground of the number of other bricks that would fall if that one were taken out |
| Day22.Part2 | src/main/kotlin/io/ysakhno/adventofcode2023/day22/Day22.kt:253-261 | part 2 sums, over the landed bricks, how many others would fall, computed on the stack with the ground first |
| Day23.CellsInRange | src/main/kotlin/io/ysakhno/adventofcode2023/day23/Day23.kt:115 | the cells of the map are exactly the points inside it |
| Day23.SlopeRules | src/main/kotlin/io/ysakhno/adventofcode2023/day23/Day23.kt:146-154 | a forest cell is never entered; a slope is entered only in its own direction unless slopes are ignored; with slopes ignored every non-forest cell is entered |
| Day23.StepsAmong | src/main/kotlin/io/ysakhno/adventofcode2023/day23/Day23.kt:145-155 | exactly the candidates on the map that the cell's character allows are kept |
| Day23.Moves | src/main/kotlin/io/ysakhno/adventofcode2023/day23/Day23.kt:144-155 | the moves from a cell are exactly the neighbours one may step to |
| Day23.OpenAround | src/main/kotlin/io/ysakhno/adventofcode2023/day23/Day23.kt:128 | an inner cell has at most four open neighbours |
| Day23.RowJunctions | src/main/kotlin/io/ysakhno/adventofcode2023/day23/Day23.kt:125-129 | the junctions found in a row are open cells with more than two open neighbours, without repeats |
| Day23.RowJunctionsComplete | src/main/kotlin/io/ysakhno/adventofcode2023/day23/Day23.kt:125-129 | every junction of the row is found |
| Day23.FindVertices | src/main/kotlin/io/ysakhno/adventofcode2023/day23/Day23.kt:123-131 | the vertices are junctions of the inner rows, without repeats |
| Day23.FindVerticesIff | src/main/kotlin/io/ysakhno/adventofcode2023/day23/Day23.kt:123-131 | a point is found exactly when it is a junction of an inner row |
| Day23.MapScope | src/main/kotlin/io/ysakhno/adventofcode2023/day23/Day23.kt:133-161 | the search scope is the map's cells, the other vertices and the start vertex, with the map's moves as successors |
| Day23.MapClosed | src/main/kotlin/io/ysakhno/adventofcode2023/day23/Day23.kt:144-155 | every move from a cell of the map stays on the map |
| Day23.MapTrail | src/main/kotlin/io/ysakhno/adventofcode2023/day23/Day23.kt:133-161 | a trail starts at the vertex and each step is a legal move from a cell that is not another vertex |
| Day23.TrailStep | src/main/kotlin/io/ysakhno/adventofcode2023/day23/Day23.kt:144-156 | a trail extends by a move from its last cell when that is not another vertex |
| Day23.ConnectedStep | src/main/kotlin/io/ysakhno/adventofcode2023/day23/Day23.kt:156 | a cell reached in len steps reaches each successor in len+1 |
| Day23.PolledShortest | src/main/kotlin/io/ysakhno/adventofcode2023/day23/Day23.kt:139-143 | a polled cell not yet visited is reached by a shortest trail of the length it was queued with |
| Day23.SearchArrive | src/main/kotlin/io/ysakhno/adventofcode2023/day23/Day23.kt:143 | reaching another vertex records an edge to it with the length it was reached by and does not expand it |
| Day23.SearchExpand | src/main/kotlin/io/ysakhno/adventofcode2023/day23/Day23.kt:144-156 | expanding a cell queues its successors one step further and keeps the search invariant |
| Day23.SearchSkip | src/main/kotlin/io/ysakhno/adventofcode2023/day23/Day23.kt:141 | a cell already visited is skipped |
| Day23.SearchDone | src/main/kotlin/io/ysakhno/adventofcode2023/day23/Day23.kt:138-160 | at the end every edge leads from the vertex to another vertex with its shortest length, no vertex is recorded twice, and every vertex a trail reaches has an edge |
| Day23.Poll | src/main/kotlin/io/ysakhno/adventofcode2023/day23/Day23.kt:139-157 | one poll of the queue skips, records an edge, or expands the cell, as the search steps define |
| Day23.FindEdges | src/main/kotlin/io/ysakhno/adventofcode2023/day23/Day23.kt:133-161 | the breadth-first search returns one edge per other vertex reachable without passing another vertex, each with the shortest length |
| Day23.Members | src/main/kotlin/io/ysakhno/adventofcode2023/day23/Day23.kt:163-164 | the set holds exactly the points of the list |
| Day23.FoundFrom | src/main/kotlin/io/ysakhno/adventofcode2023/day23/Day23.kt:163-164 | the edges from one vertex are corridors to the others and cover every one reachable |
| Day23.PairsAppend | src/main/kotlin/io/ysakhno/adventofcode2023/day23/Day23.kt:163-164 | appending a new vertex's edges keeps every (from, to) pair unique |
| Day23.CollectNext | src/main/kotlin/io/ysakhno/adventofcode2023/day23/Day23.kt:163-164 | the flat map over vertices keeps its invariant after one more vertex |
| Day23.FindAllEdges | src/main/kotlin/io/ysakhno/adventofcode2023/day23/Day23.kt:163-164 | the edges from every vertex are exactly the corridors between vertices, one per pair, each with its shortest length |
| Day23.Lookup | src/main/kotlin/io/ysakhno/adventofcode2023/day23/Day23.kt:167 | looking up a target fails exactly when it is absent and otherwise finds one of its lengths |
| Day23.Put | src/main/kotlin/io/ysakhno/adventofcode2023/day23/Day23.kt:167 | a new target is appended at the end, and the keys already present keep their order |
| Day23.PutLookup | src/main/kotlin/io/ysakhno/adventofcode2023/day23/Day23.kt:167 | after `associate` puts a target its lookup gives the new length, and other targets are unchanged |
| Day23.PutDistinct | src/main/kotlin/io/ysakhno/adventofcode2023/day23/Day23.kt:167 | putting keeps the targets distinct |
| Day23.LastLengthNone | src/main/kotlin/io/ysakhno/adventofcode2023/day23/Day23.kt:166-167 | no length is found exactly when no edge joins the two points |
| Day23.LastLengthUnique | src/main/kotlin/io/ysakhno/adventofcode2023/day23/Day23.kt:166-167 | with unique pairs, the length found is the edge's own |
| Day23.ToGraphKeys | src/main/kotlin/io/ysakhno/adventofcode2023/day23/Day23.kt:166 | a point is a key of the graph exactly when some edge starts at it |
| Day23.ToGraphLookup | src/main/kotlin/io/ysakhno/adventofcode2023/day23/Day23.kt:166-167 | the graph's length from a to b is the last edge's length from a to b |
| Day23.ToGraphDistinct | src/main/kotlin/io/ysakhno/adventofcode2023/day23/Day23.kt:167 | each point's targets are distinct |
| Day23.KidOfEdges | src/main/kotlin/io/ysakhno/adventofcode2023/day23/Day23.kt:166-167 | b is a neighbour of a in the graph exactly when some edge joins a to b |
| Day23.StepOfEdges | src/main/kotlin/io/ysakhno/adventofcode2023/day23/Day23.kt:166-167 | with unique pairs, the step length of an edge in the graph is its length |
| Day23.Closer | src/main/kotlin/io/ysakhno/adventofcode2023/day23/Day23.kt:176 | pushing a target not yet on the path shrinks the set of unused targets |
| Day23.Join | src/main/kotlin/io/ysakhno/adventofcode2023/day23/Day23.kt:177 | the best of two results is their maximum, and fails when either fails |
| Day23.PushKids | src/main/kotlin/io/ysakhno/adventofcode2023/day23/Day23.kt:176 | pushing the unvisited targets onto the stack adds their best results to the stack's best |
| Day23.FindLongestPathLength | src/main/kotlin/io/ysakhno/adventofcode2023/day23/Day23.kt:169-181 | the depth-first search gives the longest-hike recursion from the start, failing as the missing-key lookup does |
| Day23.HikeExtend | src/main/kotlin/io/ysakhno/adventofcode2023/day23/Day23.kt:176 | a hike extends by an unvisited neighbour of its last point when that is not the finish |
| Day23.LongestBound | src/main/kotlin/io/ysakhno/adventofcode2023/day23/Day23.kt:169-181 | every hike that reaches the finish weighs at most the longest length |
| Day23.LongestFail | src/main/kotlin/io/ysakhno/adventofcode2023/day23/Day23.kt:176 | a hike that gets stuck at a point with no entry in the graph makes the search fail |
| Day23.LongestFailWitness | src/main/kotlin/io/ysakhno/adventofcode2023/day23/Day23.kt:176 | when the search fails, some hike reaches a point with no entry in the graph |
| Day23.LongestWitness | src/main/kotlin/io/ysakhno/adventofcode2023/day23/Day23.kt:177 | a positive longest length is reached by a hike that ends at the finish |
| Day23.LongestHike | src/main/kotlin/io/ysakhno/adventofcode2023/day23/Day23.kt:169-181 | the search fails exactly when some hike reaches a point with no entry; otherwise it bounds every hike to the finish, and a positive result is attained by one |
| Day23.Start | src/main/kotlin/io/ysakhno/adventofcode2023/day23/Day23.kt:185 | the start is the first open cell of the top row |
| Day23.Finish | src/main/kotlin/io/ysakhno/adventofcode2023/day23/Day23.kt:186 | the finish is the first open cell of the bottom row |
| Day23.Vertices | src/main/kotlin/io/ysakhno/adventofcode2023/day23/Day23.kt:189 | the vertices lie on the map, without repeats |
| Day23.VerticesIff | src/main/kotlin/io/ysakhno/adventofcode2023/day23/Day23.kt:189 | a point is a vertex exactly when it is a junction, the start or the finish |
| Day23.GraphOfCorridors | src/main/kotlin/io/ysakhno/adventofcode2023/day23/Day23.kt:163-167 | b follows a in the graph exactly when both are vertices, distinct, and a corridor joins them; its step length is the shortest corridor length |
| Day23.Solve | src/main/kotlin/io/ysakhno/adventofcode2023/day23/Day23.kt:183-192 | the answer is the longest hike from start to finish over the graph of corridors between the vertices |
| Day23.Part1 | src/main/kotlin/io/ysakhno/adventofcode2023/day23/Day23.kt:194 | part 1 solves with slopes respected |
| Day23.Part2 | src/main/kotlin/io/ysakhno/adventofcode2023/day23/Day23.kt:196 | part 2 solves with slopes ignored |

## Left out

- Day06.ParseLong: reads the ASCII digits '0' to '9' only. Kotlin's `toLong` also accepts the other Unicode decimal digits.
- Day06.TravelDistance: computes on unbounded integers. Kotlin's `Long` product wraps around once it passes 2^63 - 1, which puzzle-sized races never reach.
- Input reading, printing, `main`, and the `check`/`assertEquals` lines are left out. The models start from parsed lines, integer lists or grids.
- The worked examples of the puzzle texts are not derived, except for the few small concrete cases named in the table.
- The regular-expression tokenisers of `Utils.kt`, MD5 and reflection are left out. `Utils.kt` is not part of this model.
- Days 24 and 25 are left out. Day 24 uses floating-point ray intersection and an external SMT solver. Day 25 uses randomised contraction, which terminates only with probability one.
- The `Float`, `Double` and `BigDecimal` overloads of `differences` are left out. The `BigInteger` overload is the unbounded `Differences`.
- Integers are unbounded throughout. The 32-bit `Int` and 64-bit `Long` overflow of the sources is not modelled. This covers the products in Days 06, 11, 18, 19 and 20 and the sums in Days 07 and 12. `Day04.ParseInt`, `Day18.ParseInt` and `Day06.ParseLong` model the range of `toInt` and `toLong`.
- `util.memoize` only caches results, so Day12's counter is plain recursion.
- `util.bordered` (used by Day21) is not part of this model. `Day21.Bordered` takes it to put a one-cell `#` frame around the map, with frame rows as wide as the framed rows.
- `util.transpose` is taken to be `IterableEx.Transpose`.
- IterableEx.Transpose: requires every row to be at least as long as the first. Kotlin's `it[i]` throws on a shorter row.
- Day01: the calibration values require a line with a digit (part 1) or a digit or digit word (part 2). Kotlin's `first`, `minBy` and `maxBy` throw on such a line instead.
- Day03.DecimalValue: unbounded. Kotlin's `toInt` throws on a digit run above 2^31 - 1.
- Day01, Day03 and Day04 treat only ASCII `0`-`9` as digits. Kotlin's `isDigit` also accepts other Unicode decimal digits.
- Day03: the regular-expression scan for numbers is modelled as a scan of maximal digit runs.
- Day07.SortHands: the result is proved sorted and a permutation of the input. Kotlin's `sorted()` is also stable, which is not stated.
- Day08: the part 2 striding loop (`while (true)`) is left out because it has no termination argument. `Strider.distToNext` and the progress printing are left out too. Only `advanceBy` and `createStrider` are modelled.
- Day08.Strider.constructor: requires a destination. The source's `init` check throws on an empty list.
- Day08.CreateStrider: requires an arrival node within the cycle, so that the strider it builds has a destination. Without one the source's `init` check throws.
- Day10: the `Area.print` and `copyWithEnclosed` display path is left out.
- Day10.NeighboursAsWrittenAgrees: the guards as written are compared with the corrected rule only on rectangular areas.
- Day14.RollRow: requires a row of `O`, `#` and `.` only. Kotlin's `rollOnce` treats any other character as an empty cell, which a rolling rock overwrites and leaves as `.`.
- Day14.RollOnce: requires a platform of `O`, `#` and `.` rows, for the same reason as `RollRow`.
- Day14.RollColumns: requires a platform whose rows are at least as long as the first. On a shorter row Kotlin's `transpose` throws.
- Day14.RollReversed: requires a platform whose rows are at least as long as the first, as `RollColumns` does.
- Day14.HalfTurn: requires a rectangular platform. It is only applied to the result of the rolls, which is one.
- Day14.SpinCycle: requires a platform whose rows are at least as long as the first, as `RollColumns` does.
- Day14.NorthTiltLoad: requires a platform whose rows are at least as long as the first, as `RollColumns` does.
- Day14.Spin: leaves any grid that is not such a platform unchanged. Kotlin would roll a grid with other characters, and throw on a short row.
- Day14.SpinN: is `Spin` repeated, so it also leaves such grids unchanged.
- Day14.RepeatSpinCycles: is stated through `SpinN`, so such grids come back unchanged.
- Day14.SpunLoad: is stated through `SpinN`, so such grids are weighed unchanged.
- Day16: the mutable `Tile.dirs` sets are modelled as one visited set of (tile, direction) photons.
- Day17.FindShortestPath: the queue is a list that takes the first cheapest entry. Java's `PriorityQueue` may break ties between equal losses differently. The least loss found is the same, but the path returned may differ. `digitToInt` is taken to be given.
- Day19: workflow jumps are bounded by `fuel`, and running out is the outcome `Unfinished`. The source loops forever on cyclic workflows. `Part1` and `Part2` are stated on the corrected simplification (see Findings).
- Day20: part 2 is a stub that forces `isActivated = true` and is left out, and so is `Button.press` (Day20.kt:235-241), which only part 2 calls. The `Dummy` pulse the button is first given is modelled, but the lazily cached pulse lists are not.
- Day20.PressAndCount: the queue loop is bounded by `fuel` pulses. When the bound is reached `done` is false and the counts are those of the pulses handled so far.
- Day20.Part1: answers `None` when some press does not settle within `fuel` pulses. Kotlin has no such bound.
- Day21: part 2 is a stub that returns the number of input lines and is left out.
- Day22: the mutable `Brick.supported` field is modelled as a separate map from each brick to the bricks resting on it, because the source assigns it once and then only reads it.
- Day22.Part1: requires a non-empty list of well-formed bricks (0 <= x1 <= x2, 0 <= y1 <= y2, z1 <= z2). The source fails on an empty list.
- Day22.Part2: requires a non-empty list of well-formed bricks, as `Part1` does.
- Day23.WellFormed: the map is required to have at least two rows of one width, each starting and ending with `#`, with an open cell in the first and in the last row. On other maps the source's column indexing can fail. A missing key in `getValue` becomes `None`.
- Day23.Solve: its `ensures` is stated for an edge list of all the corridors between the vertices. The order of `LinkedHashMap` iteration is not modelled beyond the list order.

## Findings

| source | as written | input that shows it | evidently intended | confidence | as-written member | corrected member |
|---|---|---|---|---|---|---|
| src/main/kotlin/io/ysakhno/adventofcode2023/day19/Day19.kt:125-129 | every workflow made of one unconditional rule is removed, "in" included | the workflows `in{A}`: before simplification every part is accepted; afterwards `getValue("in")` throws | keep the entry workflow | not executed | Day19.DropsTrivialEntry | Day19.SimplifyKeepingEntryPreserves |
| src/main/kotlin/io/ysakhno/adventofcode2023/day19/Day19.kt:131-141 | rules are redirected to the target of a trivial workflow that may itself be removed in the same round | `in{x<5:m,R}`, `m{t}`, `t{A}` with x=1: accepted before; afterwards `in` points to the removed `t` and `getValue` throws | remove one trivial workflow at a time, so no rule points at a removed one | not executed | Day19.LeavesDanglingRedirect | Day19.PrepareWorkflowsCorrectedPreserves |
| src/Day10.kt:327-330 | the right and down guards compare x and y with the width and height, not x+1 and y+1 | the loop `F7` over `LS`, with the start in the bottom-right corner: reading the tile to its right is out of range | look right only when x+1 < width, and down only when y+1 < height | not executed | Day10.CornerStartFallsOff | Day10.NeighboursExact |
| src/Day10.kt:299-306 | the shape chain for the start tile turns "connects up and right" into `7` | a start whose loop neighbours are above it and to its right | `L`, which connects up and right | not executed | Day10.UpRightStartMisread | Day10.StartShapeJoins |
| src/main/kotlin/io/ysakhno/adventofcode2023/day16/Day16.kt:130-131 | the top and bottom frame rows are as long as the row count plus two | the one-row layout `..\|`: the photon the splitter sends up looks past the end of the top frame row and the index throws | frame rows as long as a framed row (width plus two) | not executed | Day16.WideGridFallsOff | Day16.FramedNeverFails |
| src/main/kotlin/io/ysakhno/adventofcode2023/day17/Day17.kt:172-181 | the frame rows are as long as the row count plus two, and the target is read from the first frame row's length | the one-row city `111`: the target is the top-left block where the crucible starts | frame rows as long as a framed row, so the target is the bottom-right block | not executed | Day17.WideGridTarget | Day17.BorderedBlocks |
