# Advent of Code 2023 solutions, modelled in Dafny

This project models eight of the repository's Advent of Code 2023 solutions, one Dafny module per day. Each module takes the puzzle input already read and tokenised, and computes what the day's `part_one` and `part_two` compute. It proves what these computations promise.

- `Common` (`common.dfy`): shared pieces.
  - an `Option` type;
  - an `Outcome` type for an integer answer or a raised exception;
  - sums;
  - decimal digits and `int()` of a digit string;
  - `str.split` on a single separator and its inverse `join`.
- `Day1Trebuchet` (`day1.dfy`): calibration values.
  - `part_one` reads the first and last digit of each line and raises `ValueError` on a line with no digit.
  - `part_two` first rewrites every digit word `w` as `w`, then its digit, then `w`, one rule after another. Python's `str.replace` (left to right, without overlap) is modelled as `Replace`.
- `Day2CubeConundrum` (`day2.dfy`): cube games.
  - `Game` is a class whose `isValid` flag `part_one` clears in place.
  - Parsing maps colours to counts; a missing colour counts 0 and a repeated colour keeps its last count.
  - The limits are 12 red, 13 green and 14 blue.
  - `part_two` multiplies the per-colour maxima. `max` of an empty list raises.
- `Day3GearRatios` (`day3.dfy`): the engine schematic.
  - `draw_border` frames the rows in place, on an `array<string>`.
  - The digit-run scan of `parse_input` becomes two loop methods, proved against recursive specification functions.
  - `part_one` sums the numbers next to a symbol.
  - `part_two` groups numbers by adjacent `*` and sums the products of groups with more than one number.
  - The set of numbers under a star is a set of (position, value) pairs. Its product is proved independent of the order in which the set is visited.
- `Day4Scratchcards` (`day4.dfy`): scratchcards.
  - Parsing a number list drops empty tokens. Parsing a card splits on `:` and `|`.
  - `int()` strips surrounding whitespace, so the line break `readlines()` leaves on a card's line is ignored. The exception is a card with no guessed numbers, whose last token is then the bare line break, which raises `ValueError`.
  - `part_one` scores `2^(k-1)` for `k > 0` matches. Matches are a set intersection.
  - `part_two` keeps the copy counts in an `array<int>`. It adds each card's count to the next `k` entries, clipped at the end.
- `Day5Almanac` (`day5.dfy`): the seed almanac.
  - Each table row `a b c` becomes `Interval(source = b, target = a, step = c)`.
  - Seven conversion layers are built from consecutive parameter names.
  - In each layer the first interval that covers the value translates it, and an uncovered value passes unchanged. A layer missing from the table raises `KeyError`.
  - `part_one` is the minimum location and raises on no seeds. `part_two` only pairs the seeds and returns 0.
- `Day7CamelCards` (`day7.dfy`): camel cards.
  - The hand type comes from the number of distinct cards and their counts.
  - Jokers are replaced by a most frequent non-joker card; an all-joker hand becomes `"AAAAA"`.
  - Weighted strings make lexicographic order compare hands card by card.
  - `Hand` is a class. `part_two` rewrites each hand in place.
  - Python's stable `sorted`, driven by `Hand.__gt__`, is modelled as a sort by (type, weighted cards, original position). Winnings are the sum of rank times bid.
- `Day8Wasteland` (`day8.dfy`): the L/R walk.
  - The instruction is the first run of `L`/`R` characters.
  - The network keeps the last pair given for a node.
  - The `part_one` loop moves left on `L` and right on anything else. It counts one step per move and cycles the instruction index.
  - The walk need not end, so the model takes a bound on the number of moves.
- `Day9Oasis` (`day9.dfy`): sequence extrapolation.
  - Both parts repeat the difference sequence until it is all zeros.
  - `part_one` adds the last values.
  - `part_two` folds the first values from the deepest level up.
  - A history that never settles reaches an empty list and raises `IndexError`.

Python exceptions (`IndexError`, `KeyError`, `ValueError`, a `max` or `min` of an empty list) are modelled as explicit failure results: `Raises`, `None`, or `Fails` in day 8. So every operation is total, and its error cases are stated in its contract or in a lemma beside it (for example `Day4Scratchcards.ParseCardFails`).

## Model

| member | source | states |
|---|---|---|
| Common.DigitsMembers | day1/solution.py:16 | a character is among the digits read from a line exactly when it is a digit of the line |
| Common.DigitsAppend | day1/solution.py:16 | the digits of two joined texts are the digits of the first followed by the digits of the second, so the order of the line is kept |
| Common.DigitsFirst | day1/solution.py:16-21 | the first digit read is the line's character at the position of its first digit |
| Common.DigitsLast | day1/solution.py:16-21 | the last digit read is the line's character at the position of its last digit |
| Common.Split | day4/solution.py:31 | `str.split` on one separator gives at least one piece, and no piece contains the separator |
| Common.SplitCount | day4/solution.py:31-32 | a split gives one more piece than the separator occurs |
| Common.JoinSplit | day3/solution.py:46 | joining the pieces of a split with the separator gives back the text |
| Common.SplitJoin | day3/solution.py:46 | splitting a join of separator-free pieces gives back the pieces |
| Common.DecimalRoundTrip | day4/solution.py:20 | reading the decimal digits of a natural number gives the number back |
| Day1Trebuchet.Rules | day1/solution.py:1-11 | definition of `CONVERTING_RULES`: the nine digit words `one` to `nine` with their digit characters, in dictionary order |
| Day1Trebuchet.LineValue | day1/solution.py:16-21 | definition of one line's value: `int(digits[0] + digits[-1])` over the line's digits, or `ValueError` when there is none; its properties are stated by `LineValueDigits` and `LineValueAt` |
| Day1Trebuchet.LineValueDigits | day1/solution.py:16-21 | a line raises exactly when it has no digit; otherwise its value is ten times the first digit plus the last, at most 99, and a lone digit counts as 11 times itself |
| Day1Trebuchet.LineValueAt | day1/solution.py:16-21 | a value that does not raise is ten times the line's character at its first digit position plus the character at its last digit position |
| Day1Trebuchet.NoDigitIff | day1/solution.py:16 | no digit is read exactly when no character of the line is a digit |
| Day1Trebuchet.CalibrationSumRaisesIff | day1/solution.py:14-35 | the sum raises exactly when some line (after rewriting, in part two) has no digit |
| Day1Trebuchet.CalibrationSumBound | day1/solution.py:15-22 | a sum that does not raise lies between 0 and 99 times the number of lines |
| Day1Trebuchet.PartOne | day1/solution.py:14-22 | the accumulator loop returns the calibration sum of the lines as given, or raises at the first line without a digit |
| Day1Trebuchet.Rewrite | day1/solution.py:28-29 | definition of the part-two rewrite: every rule in order replaces its word by word, digit, word; `RewriteLine` is proved to compute it |
| Day1Trebuchet.ReplaceInserts | day1/solution.py:29 | replacing a key by a text that starts with the key only inserts characters: the input is a subsequence of the output |
| Day1Trebuchet.RewriteInserts | day1/solution.py:28-29 | applying the rules in order keeps the line as a subsequence of the result |
| Day1Trebuchet.RewriteKeepsDigits | day1/solution.py:28-32 | the original digits appear, in their order, among the rewritten line's digits, so a line part one accepts never raises in part two |
| Day1Trebuchet.ReplaceAbsent | day1/solution.py:29 | replacing a key that does not occur leaves the string unchanged |
| Day1Trebuchet.RewriteWithoutWords | day1/solution.py:28-32 | a line containing no digit word is not changed by the rewrite, so part two values it as part one does |
| Day1Trebuchet.ReplaceInsertsDigit | day1/solution.py:29 | if the key occurs anywhere, the inserted digit appears in the result, even when matches overlap |
| Day1Trebuchet.WordYieldsDigit | day1/solution.py:28-32 | a digit word present when its rule is applied puts its digit among the digits read from the fully rewritten line |
| Day1Trebuchet.FirstWordYieldsDigit | day1/solution.py:28-29 | any occurrence of "one" in the line yields a 1 in the rewritten line's digits |
| Day1Trebuchet.RewriteLine | day1/solution.py:28-29 | the loop over the rules, in dictionary order one to nine, computes the rewrite of the line |
| Day1Trebuchet.PartTwo | day1/solution.py:25-35 | the loop returns the calibration sum of the rewritten lines, or raises at the first rewritten line without a digit |
| Day2CubeConundrum.Game.constructor | day2/solution.py:12-16 | a new game holds its id and sets and starts valid |
| Day2CubeConundrum.TrimmedRemovesHeader | day2/solution.py:30-33 | cutting `7 + len(id)` characters off `"Game <id>: rest"` leaves exactly `rest` |
| Day2CubeConundrum.ColourMapKeys | day2/solution.py:38 | a colour is in the set's dictionary exactly when some pair names it |
| Day2CubeConundrum.ColourMapValue | day2/solution.py:38 | a colour named several times keeps the count of its last pair |
| Day2CubeConundrum.CountOfColour | day2/solution.py:38-41 | a colour no pair names counts 0; otherwise it counts the number of the last pair naming it |
| Day2CubeConundrum.SetCubesDefaults | day2/solution.py:38-41 | for any list of pairs, red, green and blue each get the count of the last pair naming them, and 0 when none does |
| Day2CubeConundrum.SetCubesIgnores | day2/solution.py:38-41 | a pair naming a colour other than red, green or blue changes none of the three counts |
| Day2CubeConundrum.ParseGame | day2/solution.py:24-42 | the parsed game is new and valid, keeps the id, and has one `Cubes` per set, each built from that set's pairs |
| Day2CubeConundrum.AnyExceedsIff | day2/solution.py:47-48 | a game is impossible exactly when some set has more than 12 red, 13 green or 14 blue cubes |
| Day2CubeConundrum.PartOne | day2/solution.py:45-50 | each game's flag becomes its old value and-not impossible (it is never set back to true), and the result is the sum of the ids of the games still valid |
| Day2CubeConundrum.ValidIdsArePossible | day2/solution.py:45-50 | when the flags start true, the ids summed are exactly those of the possible games |
| Day2CubeConundrum.PossibleIdsAppend | day2/solution.py:50 | one more game adds its id to the sum exactly when it is possible |
| Day2CubeConundrum.MaxIsMax | day2/solution.py:56-58 | `max` of an empty list raises; otherwise it is an element of the list and no element exceeds it |
| Day2CubeConundrum.FewestCubesFit | day2/solution.py:56-58 | the per-colour maxima exist exactly when there are sets; they hold every set, and each colour's maximum is reached by some set |
| Day2CubeConundrum.PowerSumRaisesIff | day2/solution.py:53-60 | part two raises exactly when some game has no sets |
| Day2CubeConundrum.PartTwo | day2/solution.py:53-60 | the loop returns the sum over games of max red times max green times max blue, or raises at an empty game |
| Day3GearRatios.DrawBorder | day3/solution.py:26-36 | every row is replaced in place by `'.' + row + '.'`, and the result adds a dot row above and below, or raises on an empty schematic |
| Day3GearRatios.BorderedFrame | day3/solution.py:26-36 | the framed grid has two more rows, first and last rows of dots as wide as the first framed row, a dot at both ends of every row, and the input shifted by one row and one column |
| Day3GearRatios.RunEnd | day3/solution.py:55-57 | the end of a digit run lies at or after its start, before the row's last cell, and every cell up to it is a digit |
| Day3GearRatios.RunEndMaximal | day3/solution.py:56-57 | the run ends just before a non-digit; the scan raises exactly when digits reach the end of the row |
| Day3GearRatios.SurroundingCells | day3/solution.py:58-60 | the surrounding indexes are `2(n+2)+2` cells: exactly the ring around the run, without the run itself |
| Day3GearRatios.SpanAt | day3/solution.py:59-60 | a `range` of columns on one row holds exactly the points between its bounds |
| Day3GearRatios.CellsAt | day3/solution.py:61 | each read cell is the grid's character at that point, with Python's negative indexing |
| Day3GearRatios.SpecialsExact | day3/solution.py:63-68 | the symbols recorded are exactly the surrounding cells that are not `.`, with their positions |
| Day3GearRatios.PartWellFormed | day3/solution.py:69-74 | a recorded part number is a maximal digit run of its row whose value is the run read in decimal, and whose symbols are exactly the non-dot cells around it |
| Day3GearRatios.ScanRowWellFormed | day3/solution.py:51-75 | every number recorded in a row is well formed, and the numbers come left to right without touching |
| Day3GearRatios.ScanRowCovers | day3/solution.py:51-75 | no digit is missed: every digit within the scanned width lies inside some recorded number |
| Day3GearRatios.ScanRowsWellFormed | day3/solution.py:49-75 | every number recorded by the row loop is well formed and lies between the border rows |
| Day3GearRatios.ScanRowsRaise | day3/solution.py:49-51 | one row whose scan raises makes the whole scan raise |
| Day3GearRatios.FramedRowScans | day3/solution.py:51-75 | in a framed rectangular grid the scan of an inner row never raises |
| Day3GearRatios.FramedRowsScan | day3/solution.py:49-75 | in a framed rectangular grid the row loop never raises |
| Day3GearRatios.RectangularParses | day3/solution.py:39-76 | a non-empty rectangular schematic parses, and every part number is well formed in one of its rows |
| Day3GearRatios.TrailingNewlineRaises | day3/solution.py:46-47 | as written, a rectangular schematic that parses without a trailing newline raises with one |
| Day3GearRatios.TrailingNewlineIgnored | day3/solution.py:46 | splitting into lines without the empty last piece gives the same result with or without a trailing newline, and it parses |
| Day3GearRatios.ScanLine | day3/solution.py:50-75 | the `while` loops over one row compute the row scan: the numbers found in order, or the raise |
| Day3GearRatios.ParseSchematic | day3/solution.py:48-76 | the loop over the inner rows concatenates the row scans, or raises at the first failing row |
| Day3GearRatios.PartOne | day3/solution.py:79-80 | definition of `part_one`: the sum of the values of the part numbers that have at least one symbol; its properties are stated by `PartOneAppend`, `PartOneSingle` and `CountedIffAdjacentSymbol` |
| Day3GearRatios.CountedIffAdjacentSymbol | day3/solution.py:80 | a well-formed part number counts exactly when some non-dot character lies next to its digits |
| Day3GearRatios.PartOneAppend | day3/solution.py:80 | part one of two lists of part numbers is the sum of their part ones |
| Day3GearRatios.PartOneSingle | day3/solution.py:80 | one part number contributes its value when it has a symbol, and 0 otherwise |
| Day3GearRatios.StarsOf | day3/solution.py:84-87 | a part number's links are exactly its `*` symbols, each carrying its position and value |
| Day3GearRatios.StarLinks | day3/solution.py:84-87 | the links are exactly those of the star symbols of the part numbers |
| Day3GearRatios.GroupedExact | day3/solution.py:88-90 | each star touched by a link is a key once and holds exactly the numbers linked to it; duplicates collapse |
| Day3GearRatios.ProductAny | day3/solution.py:92 | the product of a set does not depend on which element the iteration yields first |
| Day3GearRatios.GearRatio | day3/solution.py:91-92 | a star next to exactly two different numbers contributes their product |
| Day3GearRatios.GroupByStar | day3/solution.py:88-90 | the loop filling the dictionary computes the grouping |
| Day3GearRatios.ProductOf | day3/solution.py:92 | the `reduce` multiplies all values of a gear's set |
| Day3GearRatios.PartTwo | day3/solution.py:83-93 | the result is the sum, over stars with more than one number, of their products |
| Day4Scratchcards.ParseNumberList | day4/solution.py:13-20 | definition of `parse_number_list`: split on single spaces, drop empty tokens, `int()` each one; its properties are stated by `ParseNumberText`, `NumberTextTrailing` and `ParseNumberListFails` |
| Day4Scratchcards.ParseCard | day4/solution.py:23-38 | definition of `parse_card` after the id: the text after the first `:` split at `\|` into exactly two number lists, otherwise a raise; its properties are stated by `ParseCardLine` and `ParseCardFails` |
| Day4Scratchcards.ParseIntPadded | day4/solution.py:20 | like `int()`, reading a decimal numeral with ASCII whitespace on either side gives the number |
| Day4Scratchcards.ParseIntBlank | day4/solution.py:20 | like `int()`, reading a token of whitespace only fails |
| Day4Scratchcards.ParseIntsSpec | day4/solution.py:20 | reading a token list succeeds exactly when every token reads, and then gives, in order, the number of each token |
| Day4Scratchcards.ParseIntsOf | day4/solution.py:20 | tokens that each read as the matching number read as the whole list |
| Day4Scratchcards.NonEmptyKeeps | day4/solution.py:19 | the filter keeps exactly the non-empty tokens, and changes nothing when there is no empty token |
| Day4Scratchcards.NonEmptyAppend | day4/solution.py:19 | filtering a concatenation is concatenating the filtered parts |
| Day4Scratchcards.ParseNumberText | day4/solution.py:13-20 | a list of numbers written with single spaces is read back exactly |
| Day4Scratchcards.SpacesIgnored | day4/solution.py:19-20 | an extra leading or trailing space does not change the numbers read |
| Day4Scratchcards.NumberTextTrailing | day4/solution.py:13-20 | a non-empty number list followed by whitespace that holds no space, such as a line break, is still read back exactly |
| Day4Scratchcards.CardLineWith | day4/solution.py:23-38 | parsing a printed card followed by any text without `:` or `\|` gives its winning numbers and what the guessed part plus that text reads as |
| Day4Scratchcards.PrintedCardParses | day4/solution.py:23-38 | a card written as `Card <id>: winning \| guessed` is parsed back to the same card |
| Day4Scratchcards.PrintedCardTrailing | day4/solution.py:19-38 | a printed card followed by non-space whitespace parses to the same card when it has guessed numbers, and raises when it has none |
| Day4Scratchcards.ParseCardLine | day4/solution.py:23-38 | a printed card is parsed back to the same card, also with the line break `readlines()` keeps; a card with no guessed numbers then raises |
| Day4Scratchcards.ParseNumberListBlank | day4/solution.py:19-20 | a number list that is whitespace without spaces is one blank token, which `int()` rejects |
| Day4Scratchcards.ParseNumberListFails | day4/solution.py:19-20 | reading a number list fails exactly when some non-empty space-separated token is not a number |
| Day4Scratchcards.ParseCardFails | day4/solution.py:23-38 | parsing a card fails exactly on a `BadCardText`: the line has no `:`, the part after the first `:` does not have exactly one `\|`, or one of its two number lists fails |
| Day4Scratchcards.MatchesOnGuess | day4/solution.py:42 | a repeated or non-winning guess adds no match, and a new winning guess adds exactly one |
| Day4Scratchcards.MatchesPositive | day4/solution.py:42 | a card has a match exactly when some guessed number is a winning number |
| Day4Scratchcards.MatchCounts | day4/solution.py:42 | one match count per card, each the size of the intersection |
| Day4Scratchcards.PartOne | day4/solution.py:41-45 | definition of `part_one`: the sum over cards of `2^(k-1)` for `k > 0` matches; its properties are stated by `PartOneByCard` and `PartOneZeroIff` |
| Day4Scratchcards.PointsDouble | day4/solution.py:44 | each further match doubles a card's points, and `k` matches score at least `k` |
| Day4Scratchcards.PartOneByCard | day4/solution.py:41-45 | each card adds `2^(k-1)` points for `k > 0` matches and nothing otherwise |
| Day4Scratchcards.PartOneZeroIff | day4/solution.py:41-45 | the score is never negative, is 0 exactly when no card has a match, and is at least any card's match count |
| Day4Scratchcards.CopiesAreWon | day4/solution.py:49-52 | after the first cards are processed, a card's count is its original copy plus the copies won from earlier cards |
| Day4Scratchcards.CopiesAtLeastOne | day4/solution.py:49-52 | every card always has at least its one original copy |
| Day4Scratchcards.CopiesStep | day4/solution.py:52 | processing card `idx` changes only the next `k` cards, and never lowers a count |
| Day4Scratchcards.AddCopies | day4/solution.py:52 | the slice `+=` adds card `idx`'s count to entries `idx+1` up to `idx+k`, clipped at the end, and leaves the rest unchanged |
| Day4Scratchcards.TotalCopies | day4/solution.py:49-53 | the array loop returns the total of the final copy counts |
| Day4Scratchcards.PartTwo | day4/solution.py:48-53 | part two returns the total of the final copy counts of the cards |
| Day4Scratchcards.PartTwoTotal | day4/solution.py:49-53 | the final counts are the copies won, and the total is at least the number of cards |
| Day5Almanac.RulesChain | day5/solution.py:58-65 | the seven rules chain from `seed` to `location`, each starting where the one before ends, and no category is converted from twice |
| Day5Almanac.ParseIntervals | day5/solution.py:43-52 | each row `a b c` becomes an interval with source `b`, target `a` and step `c`; a row with fewer than three numbers raises |
| Day5Almanac.ParseAlmanac | day5/solution.py:55-76 | definition of `parse_almanac` after tokenising: one conversion per rule, in rule order, each from the section named after it, or a raise on a missing section or a short row; `ParsedChainComplete` states its property |
| Day5Almanac.MapValue | day5/solution.py:89-92 | definition of one layer: the first interval covering the value shifts it by `target - source`, and an uncovered value passes unchanged; its properties are stated by `MapValueFirstCover`, `MapValueUncovered` and `LaterIntervalsIgnored` |
| Day5Almanac.MapValueFirstCover | day5/solution.py:89-92 | a value in `[source, source + step)` of the first covering interval moves by `target - source` |
| Day5Almanac.MapValueUncovered | day5/solution.py:89-92 | a value covered by no interval passes the layer unchanged |
| Day5Almanac.MapValueCases | day5/solution.py:89-92 | a value either has a first covering interval or is covered by none |
| Day5Almanac.LaterIntervalsIgnored | day5/solution.py:89-92 | intervals after the first covering one are never consulted |
| Day5Almanac.TranslationKeepsOrder | day5/solution.py:90-91 | two values moved by the same interval keep their order and their distance |
| Day5Almanac.ByKey | day5/solution.py:83-86 | the table's keys are exactly the keys of the conversions |
| Day5Almanac.ByKeyLastWins | day5/solution.py:83-86 | a key repeated in the conversions keeps its last conversion |
| Day5Almanac.Pipeline | day5/solution.py:87-92 | definition of the chain of layers from one layer on: each looks its key up (a missing key raises `KeyError`) and maps the value; its properties are stated by `PipelineRaisesIff` and `PipelineUncovered` |
| Day5Almanac.PipelineRaisesIff | day5/solution.py:87-88 | converting raises exactly when some layer's key is missing from the table |
| Day5Almanac.PipelineUncovered | day5/solution.py:87-92 | a value no interval covers reaches the location unchanged |
| Day5Almanac.LocationsAt | day5/solution.py:80-93 | each seed's location is the full conversion chain applied to it |
| Day5Almanac.Min | day5/solution.py:94 | the minimum is an element no other element is below |
| Day5Almanac.LowestLocation | day5/solution.py:79-94 | definition of part one's answer: the `min` of the seeds' locations, raising on no seeds or a missing layer; `LowestLocationIsMinimum` states its property |
| Day5Almanac.LowestLocationIsMinimum | day5/solution.py:79-94 | part one's answer is some seed's location and no seed's location is lower |
| Day5Almanac.ParsedChainComplete | day5/solution.py:58-71 | a parsed almanac has every layer's key, each mapped to its section's intervals |
| Day5Almanac.KeysDistinct | day5/solution.py:83-88 | the seven layer keys are all different |
| Day5Almanac.ApplyConversion | day5/solution.py:89-92 | the interval loop with `break` applies the first covering interval, or none |
| Day5Almanac.Locate | day5/solution.py:82-92 | the loop over the layers converts one seed, or raises on a missing layer |
| Day5Almanac.PartOne | day5/solution.py:79-94 | part one returns the lowest location, or raises on a missing layer or no seeds |
| Day5Almanac.SeedIntervals | day5/solution.py:98-101 | seeds are paired two by two into `(start, start + length)`, and an unpaired last seed is dropped |
| Day5Almanac.PartTwo | day5/solution.py:97-103 | part two returns 0 whatever the almanac, as the unfinished source does |
| Day7CamelCards.ValueInjective | day7/solution.py:13-19 | the seven hand types have seven different values |
| Day7CamelCards.Count | day7/solution.py:52-61 | definition of `cards.count(char)` in the occurrence dictionary; its properties are stated by `CountIsMultiplicity` and `CountPositive` |
| Day7CamelCards.CountIsMultiplicity | day7/solution.py:58-61 | a card's count is its multiplicity in the hand |
| Day7CamelCards.CountPositive | day7/solution.py:58-61 | a card is counted exactly when it is in the hand |
| Day7CamelCards.MaxCountIsMax | day7/solution.py:77 | the largest count is one of the counts and no count exceeds it |
| Day7CamelCards.MinCountIsMin | day7/solution.py:73 | the smallest count is one of the counts and no count is below it |
| Day7CamelCards.Classify | day7/solution.py:64-83 | definition of `classify_hand` from the number of distinct cards and the smallest and largest count; its properties are stated by `ClassifyByProfile`, `ClassifyPermutation`, `ClassifyExtremes` and `ClassifyUniform` |
| Day7CamelCards.ClassifyByProfile | day7/solution.py:64-83 | the type depends only on the number of distinct cards and the set of their counts |
| Day7CamelCards.ClassifyPermutation | day7/solution.py:64-83 | reordering the cards does not change the type |
| Day7CamelCards.ClassifyExtremes | day7/solution.py:64-83 | five equal cards are five of a kind; five different cards are a high card |
| Day7CamelCards.ClassifyUniform | day7/solution.py:71-72 | a hand of one repeated card is five of a kind |
| Day7CamelCards.ReplaceJokersAt | day7/solution.py:98 | replacing jokers keeps the length, puts the chosen card where each `J` was, and keeps every other card |
| Day7CamelCards.ReplaceJokersCount | day7/solution.py:98 | after replacement the chosen card gains the joker count, no `J` is left, and other counts are unchanged |
| Day7CamelCards.AllJokersAt | day7/solution.py:94-95 | there is no non-joker card exactly when every card is `J` |
| Day7CamelCards.BestOverIsBest | day7/solution.py:97 | the chosen card is a non-joker of the hand with no non-joker more frequent |
| Day7CamelCards.MostFrequentExists | day7/solution.py:97 | a hand with some non-joker has a most frequent non-joker card |
| Day7CamelCards.SubstituteJokers | day7/solution.py:86-98 | an all-joker hand becomes `"AAAAA"`; otherwise the result has the same length, no `J`, and every non-joker position unchanged |
| Day7CamelCards.JokerChoiceIrrelevant | day7/solution.py:97-98 | which most frequent card `max` picks does not change the resulting type |
| Day7CamelCards.JokerSubstituteType | day7/solution.py:139-141 | the type after substitution is the joker-aware type of the original cards |
| Day7CamelCards.PairTable | day7/solution.py:111-113 | the weight dictionary's keys are exactly the cards of the order |
| Day7CamelCards.PairTableAt | day7/solution.py:111-113 | each card of the order maps to the weight at its position |
| Day7CamelCards.Weighted | day7/solution.py:101-114 | definition of `get_cards_weighted`: each card replaced by its weight letter, raising `KeyError` on a card missing from the order; `WeightedSpec` and `WeightedComparesCards` state its properties |
| Day7CamelCards.WeightedSpec | day7/solution.py:111-114 | weighting succeeds exactly when every card is in the order; it keeps the length and maps each card to its weight |
| Day7CamelCards.OrdersWellFormed | day7/solution.py:4-6 | both card orders have thirteen distinct cards, one per weight |
| Day7CamelCards.WeightsDescending | day7/solution.py:6 | the weight letters strictly decrease |
| Day7CamelCards.WeightOrder | day7/solution.py:111-113 | a card earlier in the order gets a larger weight, and different cards get different weights |
| Day7CamelCards.JokerWeakest | day7/solution.py:5 | in the joker order `J` has the smallest weight |
| Day7CamelCards.WeightedComparesCards | day7/solution.py:101-114 | comparing weighted strings compares the hands card by card in the order's ranking |
| Day7CamelCards.Outranks | day7/solution.py:39-42 | definition of `Hand.__gt__`: a higher type wins, and equal types compare the weighted cards; `OutranksStrictTotal` states its property |
| Day7CamelCards.StrLessTransitive | day7/solution.py:41 | string comparison is transitive |
| Day7CamelCards.StrLessTotal | day7/solution.py:41 | of two different strings one is smaller |
| Day7CamelCards.OutranksStrictTotal | day7/solution.py:39-42 | `>` compares type first, then weighted cards, and is a strict total order |
| Day7CamelCards.Hand.constructor | day7/solution.py:25-37 | a new hand holds its type, cards, weighted cards and bid |
| Day7CamelCards.ReadHand | day7/solution.py:124-129 | a hand is built with its cards' type and weighted cards, and building raises exactly when a card is unknown |
| Day7CamelCards.BeforeOrder | day7/solution.py:134 | the sort order is irreflexive and transitive |
| Day7CamelCards.Insert | day7/solution.py:134 | inserting adds exactly one entry |
| Day7CamelCards.InsertAscending | day7/solution.py:134 | inserting into an ascending list keeps it ascending |
| Day7CamelCards.SortEntries | day7/solution.py:134 | the sort returns a permutation of the hands in ascending order |
| Day7CamelCards.SortedWeakestFirst | day7/solution.py:134 | no hand outranks a later one, and equal hands keep their input order |
| Day7CamelCards.WinningsBounds | day7/solution.py:134 | with non-negative bids the winnings lie between the sum of the bids and that sum times the number of hands |
| Day7CamelCards.TotalWinnings | day7/solution.py:142 | the sum of rank times bid over the sorted hands |
| Day7CamelCards.PartOne | day7/solution.py:133-134 | part one is the winnings of the hands sorted weakest first |
| Day7CamelCards.SubstitutionIsRewrite | day7/solution.py:139-141 | the new hand has the substituted cards, weights from the original cards in the joker order, and the type of the substituted cards |
| Day7CamelCards.Rewrite | day7/solution.py:139-141 | one hand is rewritten in place, bid kept, or left untouched when its cards cannot be weighted |
| Day7CamelCards.RewriteAll | day7/solution.py:138-141 | the hands before the first failure are rewritten, the rest are untouched, and bids never change |
| Day7CamelCards.PartTwo | day7/solution.py:137-142 | part two succeeds exactly when every hand can be weighted; then every hand is rewritten and the result is their winnings |
| Day8Wasteland.LeadingTurns | day8/solution.py:20-22 | the run taken is a prefix of `L`/`R` characters that cannot be extended |
| Day8Wasteland.FirstTurnsIsFirstRun | day8/solution.py:20-22 | the instruction is absent exactly when the text has no `L` or `R`; otherwise it is the first maximal run of them |
| Day8Wasteland.NetworkKeys | day8/solution.py:23-26 | the network's nodes are exactly the nodes of the matches |
| Day8Wasteland.NetworkLastWins | day8/solution.py:23-26 | a node matched several times keeps its last pair of successors |
| Day8Wasteland.ParseInputGraph | day8/solution.py:17-30 | definition of `parse_input_graph` on the read text and its node matches: the first run of `L`/`R` and the network, or a raise when there is no run; `ParsedInstruction` states its properties |
| Day8Wasteland.ParsedInstruction | day8/solution.py:17-30 | parsing fails exactly when there is no `L`/`R`; otherwise the map holds the first run and the network |
| Day8Wasteland.IndexInRange | day8/solution.py:42 | after any move the instruction index lies within the instruction |
| Day8Wasteland.WalkOf | day8/solution.py:37 | when the start is the target the walk returns 0 steps |
| Day8Wasteland.WalkArrivesIff | day8/solution.py:33-43 | the walk returns `s` exactly when `s` moves end on the target and no earlier move does, within the bound |
| Day8Wasteland.MissingMeansFailedMove | day8/solution.py:38-40 | a walk that breaks off has made a move with no instruction or from a node missing from the network |
| Day8Wasteland.WalkFailsAt | day8/solution.py:37-42 | a walk that raises has reached a failing move within the bound |
| Day8Wasteland.EmptyInstructionRaises | day8/solution.py:39 | with an empty instruction and the start not the target, the first move raises, or the walk runs out of a zero bound |
| Day8Wasteland.PartOne | day8/solution.py:33-43 | the `while` loop returns what the walk specifies: the first step count on the target, the raise, or no arrival within the bound |
| Day9Oasis.Differences | day9/solution.py:10 | the difference list is one shorter than a non-empty list |
| Day9Oasis.DifferencesAt | day9/solution.py:10 | each difference is the next value minus the current one |
| Day9Oasis.AllZeroIff | day9/solution.py:9 | the loop condition fails exactly when every value is zero |
| Day9Oasis.LevelsChain | day9/solution.py:8-11 | the levels built are exactly the chain that starts at the history, takes differences until the first all-zero level, and has no empty level |
| Day9Oasis.PredictionsOverLevels | day9/solution.py:6-27 | both predictions exist exactly when the levels do; the next value is the sum of the levels' last values and the previous value is the alternating fold of their first values |
| Day9Oasis.NextValue | day9/solution.py:6-12 | definition of one history's forward prediction: the last value plus the prediction of the differences, down to the first all-zero level, raising on an empty level; `PredictionsOverLevels` states its closed form |
| Day9Oasis.PrevValue | day9/solution.py:18-27 | definition of one history's backward prediction: the first value minus the prediction of the differences, raising on an empty level; `PredictionsOverLevels` and `BackwardIsForwardReversed` state its properties |
| Day9Oasis.FoldFirstsSnoc | day9/solution.py:25-26 | folding one more first value subtracts the running prediction from it |
| Day9Oasis.UnwindSnoc | day9/solution.py:25-26 | unwinding one more level subtracts the deeper prediction from that level's first value |
| Day9Oasis.PredictNext | day9/solution.py:6-12 | the loops of part one compute the next value of one history, or raise |
| Day9Oasis.PredictPrev | day9/solution.py:18-27 | the loops of part two compute the previous value of one history, or raise |
| Day9Oasis.TotalDefinedIff | day9/solution.py:4-13 | the total exists exactly when every history has a prediction |
| Day9Oasis.PartOne | day9/solution.py:4-13 | part one sums the next values of the histories |
| Day9Oasis.PartTwo | day9/solution.py:16-28 | part two sums the previous values of the histories |
| Day9Oasis.EmptyHistoryFails | day9/solution.py:8 | an empty history raises in both parts |
| Day9Oasis.ZeroHistory | day9/solution.py:9 | an all-zero history predicts 0 both ways |
| Day9Oasis.ConstantHistory | day9/solution.py:9-11 | a constant history predicts the constant both ways |
| Day9Oasis.SingleNonZeroFails | day9/solution.py:9-11 | a single non-zero value never settles and raises |
| Day9Oasis.ArithmeticHistory | day9/solution.py:4-13 | an arithmetic progression of at least three values extends by one step either way |
| Day9Oasis.ArithmeticDifferences | day9/solution.py:10 | an arithmetic progression's differences are all its step |
| Day9Oasis.ConstantStep | day9/solution.py:9-12 | constant differences add the step to the last value and subtract it from the first |
| Day9Oasis.DifferencesOfNegated | day9/solution.py:10 | the differences of the negated list are the negated differences |
| Day9Oasis.DifferencesOfReversed | day9/solution.py:10 | the differences of the reversed list are the negated reversed differences |
| Day9Oasis.SettledNegatedReversed | day9/solution.py:9 | negating or reversing a list does not change whether it is all zeros |
| Day9Oasis.NextOfNegated | day9/solution.py:4-13 | negating a history negates its next value |
| Day9Oasis.BackwardIsForwardReversed | day9/solution.py:16-28 | part two's prediction of a history is part one's prediction of it reversed |

## Left out

- File reading and the `__main__` blocks of every day are not modelled. Each model starts from the input already read: lines, a grid, tokens or triples.
- Regular-expression tokenising is not modelled; the model takes the tokenised result.
  - day 2: the game id and the `count colour` pairs of each set;
  - day 4: the card id;
  - day 5: each section's rows as integer lists, keyed by section name;
  - day 7: the split of each line into cards and bid;
  - day 8: the node triples;
  - day 9: the integers of each line.
- Python's `str.isdigit` accepts other Unicode digits. Here a digit is `'0'`..`'9'`.
- Day4Scratchcards.ParseInt: strips ASCII whitespace as `int()` does, but rejects signs (`+3`), underscores (`1_0`) and Unicode whitespace or digits, which `int()` accepts. A printed card holds none of them.
- Integers are unbounded. numpy's 64-bit array in day 4 can overflow; the model does not.
- Day 6 is not part of this model. It computes with floating-point square roots, `floor` and `ceil`.
- Day 5's `part_two` only pairs the seeds and returns 0. The range-splitting algorithm it leaves as a TODO is not modelled.
- Day 8's `part_two` is an empty stub (`pass`) and is not modelled.
- Day8Wasteland.PartOne: the Python loop never ends when the target cannot be reached. The model takes a bound on the number of moves and reports running out of it. Its contract is exact for any bound at least as large as the step count.
- Day 3 keys its dictionaries by strings `"x_y"` and `"x_y_value"`. The model keys them by points and by (point, value) pairs, which identify the same things. Reading the value back with `split("_")[2]` becomes reading the pair's second part.
- Day3GearRatios.ProductOf: `reduce` visits a set in Python's hash order. The model takes the elements in any order and proves that the product does not depend on it, so the specification `Product` is a ghost function.
- Day7CamelCards.PartTwo: the model requires the hands to be distinct objects. Python would allow the same `Hand` to appear twice, in which case it is rewritten twice.
- Day1Trebuchet.WordYieldsDigit: requires the word to be present at the moment its own rule runs. The model does not prove that earlier rules never break a later word apart. That fact is why an overlapping pair such as "eightwo" yields both 8 and 2.
- Day 2's `Game` dataclass allows every field to be reassigned. Only `is_valid` is assigned in the source, so `id` and `cubes_sets` are constant fields.

## Findings

| source | as written | input that shows it | evidently intended | confidence | as-written member | corrected member |
|---|---|---|---|---|---|---|
| day3/solution.py:46 | `f.read().split("\n")` keeps the empty piece after a final newline. After framing it is a row `".."` shorter than the others, and scanning it indexes past its end (`IndexError`). | a rectangular schematic such as `"1.\n.*\n"` whose file ends with a newline | read the file's lines without the empty last piece, so that a trailing newline changes nothing | not executed | Day3GearRatios.TrailingNewlineRaises | Day3GearRatios.TrailingNewlineIgnored |
