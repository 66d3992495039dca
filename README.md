# Advent of Code 2022, days 1–4, in Dafny

This project models four puzzle solvers. Each reads the puzzle input as one text and returns a number.

- **Day 1, calorie counting** (`src/aoc1.rs`, module `CalorieCounting`). The input is split on blank lines into one group per elf. Each line of a group is parsed as a `usize`, and the numbers of a group are summed. Part one is the largest group total. Part two is the sum of the three largest totals.
- **Day 2, rock paper scissors** (`src/aoc2.rs`, module `RockPaperScissors`). Each line is a round of two symbols. A round scores the value of the player's shape plus 0, 3 or 6 for a loss, draw or win. In part one the second symbol is the player's shape. In part two it is the outcome wanted, and the shape is chosen to produce it.
- **Day 3, rucksack reorganization** (`src/aoc3.rs`, module `Rucksacks`). Each line is a rucksack whose two halves are compartments. Part one sums the priorities of the item types found in both halves: a–z are 1–26 and A–Z are 27–52. Part two takes the lines three at a time and sums the priority of the one type (the badge) all three carry. Both parts work imperatively on boolean tables, as the source does: `array<bool>` tables in part one and a 3 × 52 `array2<bool>` in part two. Each method is proved equal to a functional specification.
- **Day 4, camp cleanup** (`src/aoc4.rs`, module `CampCleanup`). Each line is a pair of section ranges `a-b,c-d`. Part one counts the pairs where one range fully contains the other. Part two counts the pairs that overlap.

Two shared modules support these:

- `Text` models the parts of Rust's string library the solvers use, over bytes: `str::lines`, `split`, `split_once`, `trim` and `parse::<uN>`. It also holds first-error collection of iterator results, sums and `chunks`.
- `Selection` models `k_smallest` over `Reverse`, i.e. the `k` largest values, by insertion into a bounded descending list.

Where the source panics (`expect`, `unwrap`, `unreachable!`, `panic!`), the model returns an `Err` carrying what was rejected. When several lines are bad, the error reported is that of the first bad line, as in the source's lazy iteration.

The model follows the code in a few places where its behaviour might be unexpected:

- Day 1 does not trim lines before parsing them. A line with surrounding spaces is therefore an error.
- With fewer than three groups, `k_smallest(3)` sums all of them rather than failing.
- Part one of day 1 on empty input gives 0: splitting always yields at least one group, so `max()` never sees an empty iterator.
- On day 3, part two returns as soon as a badge is found. Bytes of the third line after the badge are therefore never checked.

## Model

| member | source | states |
|---|---|---|
| Text.Lines | src/aoc1.rs:8 | Every line of `str::lines` is free of line feeds, and there are no more lines than bytes |
| Text.TrailingCRKept | src/aoc1.rs:8 | A carriage return at the very end of the text, with no line feed after it, stays in the last line |
| Text.LinesOfJoin | src/aoc2.rs:48-49 | Lines joined with line feeds (none empty at the end, none holding a break) are split back into exactly those lines |
| Text.Split | src/aoc1.rs:5 | Splitting on a blank line gives at least one piece; joining the pieces with the separator restores the input; no piece holds the separator |
| Text.SplitLeftmost | src/aoc1.rs:5 | Matches are leftmost and do not overlap: no occurrence of the separator starts inside a piece and runs into the separator after it |
| Text.FirstPieceLeftmost | src/aoc1.rs:5 | No occurrence starting inside the first piece runs into the first match |
| Text.ThreeNewlines | src/aoc1.rs:5 | Three line feeds split on a blank line into an empty piece and a piece holding one line feed, not the other way round |
| Text.SplitOnce | src/aoc4.rs:6-8 | `split_once` fails exactly when the separator is absent; otherwise the input is first part, separator, second part, and the separator does not occur in the first part |
| Text.SplitOnceOf | src/aoc4.rs:11 | The converse: a separator-free prefix, the separator and any rest are split at that separator |
| Text.Trim | src/aoc2.rs:53 | `trim` gives the sub-slice between the first and last non-whitespace bytes, or nothing when every byte is whitespace |
| Text.ParseUnsigned | src/aoc1.rs:10-11 | Parsing succeeds exactly on a non-empty digit string whose value fits the bound, and gives that value |
| Text.ParseDecimal | src/aoc4.rs:14 | The decimal rendering of any number within the bound parses back to that number |
| Text.MapAll | src/aoc1.rs:7-13 | Collecting per-item results succeeds exactly when every item succeeds, with one value per item; otherwise it yields the error of the first failing item |
| Text.MapAllSameErrors | src/aoc2.rs:48-76 | Two per-item functions that succeed and fail on the same items with the same errors collect to the same success and the same error |
| Text.Sum | src/aoc2.rs:76 | No term exceeds the sum |
| Text.SumBounds | src/aoc2.rs:76 | A sum of values each in `lo..hi` lies between `lo` and `hi` times the count |
| Text.Chunks | src/aoc3.rs:72-75 | `chunks(n)` cuts the lines in order into non-empty pieces of `n` lines, all full but the last |
| Text.ChunksLength | src/aoc3.rs:72-75 | The number of lines is `n` times the number of full chunks plus the length of the last |
| Selection.SortDescCorrect | src/aoc1.rs:31-32 | The descending sort is sorted and a permutation of its input |
| Selection.SortedDescUnique | src/aoc1.rs:31-32 | Two descending sequences with the same elements are equal |
| Selection.KLargest | src/aoc1.rs:31-32 | At most `k` values, and no more than the input holds; `Selection.KLargestIsSortedPrefix` shows they are the first `k` of the descending sort |
| Selection.KLargestIsSortedPrefix | src/aoc1.rs:31-33 | The bounded insertion selector yields the first `k` elements of the descending sort |
| Selection.TopSumPicksLargest | src/aoc1.rs:31-34 | The `k` values picked are descending, drawn from the input, `min(k, n)` in number, and no value left out exceeds a picked one |
| Selection.TopSumReorder | src/aoc1.rs:31-34 | The sum of the `k` largest does not depend on the order of the input |
| Selection.TopSumOfFew | src/aoc1.rs:31-34 | With at most `k` values, all of them are summed |
| Selection.Max | src/aoc1.rs:15 | The maximum of a non-empty sequence is an element and no element is larger |
| Selection.MaxIsFirstOfTop | src/aoc1.rs:15-16 | The maximum is the first of the `k` largest |
| Selection.TopSumBounds | src/aoc1.rs:31-34 | The sum of the `k` largest lies between the maximum and `k` times the maximum |
| CalorieCounting.ParseCalories | src/aoc1.rs:10-11 | A line is a calorie count exactly when it is a non-empty digit string with value at most 2^64 − 1; otherwise the error names the line |
| CalorieCounting.GroupSum | src/aoc1.rs:7-13 | A group succeeds exactly when every one of its lines parses; a group with no lines totals 0 |
| CalorieCounting.GroupSumValue | src/aoc1.rs:7-13 | A group whose lines all parse totals the decimal values of its lines, whatever its line endings |
| CalorieCounting.GroupSums | src/aoc1.rs:4-14 | One total per blank-line-separated group, at least one, each the sum of its parsed lines |
| CalorieCounting.GroupSumsOk | src/aoc1.rs:4-14 | The totals succeed exactly when every blank-line-separated group parses |
| CalorieCounting.Part1 | src/aoc1.rs:3-17 | Succeeds exactly when every group does; the answer is one of the group totals and no total exceeds it |
| CalorieCounting.Part2 | src/aoc1.rs:19-35 | Succeeds exactly when every group does; the answer is the sum of the first three totals in descending order |
| CalorieCounting.Part1WithinPart2 | src/aoc1.rs:3-35 | Both parts fail on the same inputs; the top three sum to at least the maximum and at most three times it |
| CalorieCounting.Part2OfFewGroups | src/aoc1.rs:31-34 | With three groups or fewer, part two is the total of all groups |
| CalorieCounting.GroupOrderIrrelevant | src/aoc1.rs:3-35 | Reordering the groups of a valid input changes neither answer |
| CalorieCounting.SplitOfJoin | src/aoc1.rs:5 | Groups free of blank lines, joined by blank lines, split back into the same groups |
| CalorieCounting.GroupOfNumbers | src/aoc1.rs:7-13 | Lines of numbers joined by line feeds form a group whose total is the sum of the numbers |
| CalorieCounting.ExampleAnswers | src/aoc1.rs:42-78 | On the puzzle's example the answers are 24000 and 45000 |
| CalorieCounting.ExtraNewlineFails | src/aoc1.rs:5-11 | Three line feeds between two numbers leave a line feed at the start of the second group, whose empty first line fails to parse, so both parts fail |
| RockPaperScissors.ShapeScore | src/aoc2.rs:5-9 | A shape scores 1, 2 or 3 |
| RockPaperScissors.ResultScore | src/aoc2.rs:15-19 | An outcome scores 0, 3 or 6 |
| RockPaperScissors.CalculateScore | src/aoc2.rs:22-44 | A round scores between 1 and 9, congruent to the shape's score modulo 3 |
| RockPaperScissors.BattleIsCyclic | src/aoc2.rs:31-38 | The outcome is a draw, win or loss exactly when the shape scores differ by 0, 1 or 2 modulo 3 |
| RockPaperScissors.Battle | src/aoc2.rs:31-38 | A round is a draw exactly when both hands agree; the player wins exactly when the opponent plays the hand the player's hand beats, and loses exactly when the opponent plays the hand that beats it |
| RockPaperScissors.BeatsExactlyOne | src/aoc2.rs:33-37 | The hand a hand beats, the hand that beats it and the hand itself are three different hands, so with `Battle` each hand beats exactly one hand and loses to exactly one |
| RockPaperScissors.BattleAntisymmetric | src/aoc2.rs:31-38 | A win for one side is a loss for the other; a draw is a draw for both |
| RockPaperScissors.ChooseSignCorrect | src/aoc2.rs:107-111 | The shape chosen produces the wanted outcome, and it is the only shape that does |
| RockPaperScissors.ChooseSignInjective | src/aoc2.rs:107-111 | Different wanted outcomes lead to different shapes |
| RockPaperScissors.Symbols | src/aoc2.rs:52-53 | A line is a round exactly when it trims to three bytes; the symbols are the first and third of them; otherwise the error names the line |
| RockPaperScissors.OpponentSign | src/aoc2.rs:57-62 | Exactly `A`, `B` and `C` denote a shape of the opponent |
| RockPaperScissors.MySign | src/aoc2.rs:65-70 | Exactly `X`, `Y` and `Z` denote the player's shape |
| RockPaperScissors.WantedResult | src/aoc2.rs:99-104 | Exactly `X`, `Y` and `Z` denote a wanted outcome |
| RockPaperScissors.SymbolsRoundTrip | src/aoc2.rs:57-104 | Each symbol decoding is inverted by the matching encoding, both ways |
| RockPaperScissors.RoundScore1 | src/aoc2.rs:50-74 | A round succeeds exactly when it trims to three bytes with an opponent symbol first and a shape symbol third; it scores 1 to 9 |
| RockPaperScissors.RoundScore2 | src/aoc2.rs:83-119 | A round succeeds exactly when it trims to three bytes with an opponent symbol first and an outcome symbol third; it scores 1 to 9 |
| RockPaperScissors.ChooseSign | src/aoc2.rs:107-111 | The chosen hand gives the wanted result against the opponent |
| RockPaperScissors.RoundScore2IsCalculateScore | src/aoc2.rs:83-118 | For every line the second part accepts, whatever its whitespace, the score is `calculate_score` of the hand chosen for the wanted outcome against the opponent |
| RockPaperScissors.RoundScore2OfSymbols | src/aoc2.rs:107-118 | The same for a round written as opponent symbol, space and outcome symbol |
| RockPaperScissors.SameRoundErrors | src/aoc2.rs:46-122 | Both readings of a line fail on the same lines with the same error |
| RockPaperScissors.MiddleIgnored | src/aoc2.rs:52-53 | The middle byte of a round does not affect its score |
| RockPaperScissors.Part1 | src/aoc2.rs:46-77 | Succeeds exactly when every line is a valid round; no lines score 0 |
| RockPaperScissors.Part2 | src/aoc2.rs:79-122 | Succeeds exactly when every line is a valid round; no lines score 0 |
| RockPaperScissors.TotalBounds | src/aoc2.rs:46-122 | Each total lies between once and nine times the number of rounds |
| RockPaperScissors.SameErrors | src/aoc2.rs:46-122 | Both parts fail on the same inputs with the same error |
| RockPaperScissors.Example1 | src/aoc2.rs:129-135 | The example scores 15 in part one |
| RockPaperScissors.Example2 | src/aoc2.rs:137-143 | The indented example scores 12 in part two |
| Rucksacks.Priority | src/aoc3.rs:7-10 | A letter's priority is between 1 and 52, and at most 26 exactly for lower case |
| Rucksacks.ToPriority | src/aoc3.rs:7-13 | Succeeds exactly on ASCII letters, giving their priority; any other byte is reported as an invalid item |
| Rucksacks.PriorityRoundTrip | src/aoc3.rs:7-13 | Priorities and letters are in one-to-one correspondence |
| Rucksacks.PriorityInjective | src/aoc3.rs:7-10 | Different letters have different priorities |
| Rucksacks.TypesMembers | src/aoc3.rs:39-42 | The set of types of a compartment holds exactly the priorities of its letters |
| Rucksacks.FirstInvalid | src/aoc3.rs:39-47 | There is no invalid byte exactly when every byte is a letter; otherwise the one found is a non-letter of the line |
| Rucksacks.Compartments | src/aoc3.rs:36 | The two compartments make up the line, the first holding half its length rounded down |
| Rucksacks.Shared | src/aoc3.rs:45-56 | The shared types occur in both compartments |
| Rucksacks.RucksackValue | src/aoc3.rs:30-58 | A rucksack succeeds exactly when every byte is a letter; otherwise the error is one of its non-letters |
| Rucksacks.RucksackValueZero | src/aoc3.rs:45-57 | A rucksack is worth 0 exactly when its compartments share no type |
| Rucksacks.RucksackValueSingle | src/aoc3.rs:45-57 | With a single shared type, a rucksack is worth that type's priority |
| Rucksacks.RucksackValueBound | src/aoc3.rs:45-57 | A rucksack is worth at most the priorities of either compartment's types |
| Rucksacks.SharedTypeIsLetter | src/aoc3.rs:50-52 | A type counted as shared is carried as the same letter in both compartments |
| Rucksacks.RucksackOfLetter | src/aoc3.rs:36-57 | Two letter halves of equal length with exactly one common letter are worth that letter's priority |
| Rucksacks.PrioritySumMonotone | src/aoc3.rs:57 | More types never sum to less |
| Rucksacks.SharedTotal | src/aoc3.rs:28-60 | The total succeeds exactly when every rucksack does; no lines total 0 |
| Rucksacks.Clear | src/aoc3.rs:32-33 | After the reset, no type is marked |
| Rucksacks.MarkTypes | src/aoc3.rs:39-42 | Returns the first invalid byte; otherwise marks exactly the types of the compartment |
| Rucksacks.CountShared | src/aoc3.rs:45-57 | Sums each type of the second compartment once if the first has marked it; the marks end as the shared types |
| Rucksacks.AddShared | src/aoc3.rs:48-55 | One item of the second compartment adds its priority exactly when it is marked in the first and not yet counted |
| Rucksacks.CommonPriorities | src/aoc3.rs:30-58 | The imperative per-rucksack computation equals the rucksack's value, errors included |
| Rucksacks.Part1 | src/aoc3.rs:22-61 | The imperative solver equals the functional total, errors included |
| Rucksacks.BadgeScan | src/aoc3.rs:83-97 | A badge is a common type of a letter of the line; an error names an invalid byte of the line; no badge is reported exactly when every byte is a letter of no common type |
| Rucksacks.BadgeScanFirstBadge | src/aoc3.rs:83-96 | A badge comes from a letter every byte before which is a letter of no common type |
| Rucksacks.BadgeScanFirstInvalid | src/aoc3.rs:83-87 | An invalid byte reported is one before which every byte is a letter of no common type |
| Rucksacks.BadgeScanStopsAtBadge | src/aoc3.rs:91-96 | Once a line yields a badge, nothing after it is read: appending bytes changes nothing |
| Rucksacks.Badge | src/aoc3.rs:76-100 | The first invalid byte of the first line is reported, then that of the second line; otherwise the badge is the scan of the third line against the types the first two share; a group of fewer than three lines fails, with no badge when its lines are valid |
| Rucksacks.BadgeMissing | src/aoc3.rs:100 | In a group of letters, no badge is found exactly when no type is common to all three |
| Rucksacks.BadgeUnique | src/aoc3.rs:89-96 | The single type common to all three is the badge |
| Rucksacks.BadgeOfLetter | src/aoc3.rs:81-96 | A letter common to three letter-only rucksacks, and the only one common to all three, is the badge |
| Rucksacks.BadgeTotal | src/aoc3.rs:72-103 | The total succeeds exactly when every group of three has a badge; no lines total 0 |
| Rucksacks.PartialGroupFails | src/aoc3.rs:72-100 | A number of lines that is not a multiple of three always fails |
| Rucksacks.ClearTable | src/aoc3.rs:78 | After the reset, no type is marked in any row |
| Rucksacks.ScanStopsAt | src/aoc3.rs:83-96 | The scan stops at an invalid byte with that error, and at a letter of a common type with its priority |
| Rucksacks.ScanPassesAt | src/aoc3.rs:83-96 | The scan moves past a letter of a type that is not common |
| Rucksacks.MarkRow | src/aoc3.rs:83-97 | Marking one rucksack's row equals the functional scan and leaves the other rows unchanged; if no badge is found, the row holds exactly that rucksack's types |
| Rucksacks.FindBadge | src/aoc3.rs:76-100 | The imperative scan of a group equals the functional badge, errors included |
| Rucksacks.Part2 | src/aoc3.rs:63-104 | The imperative solver equals the functional total, errors included |
| Rucksacks.ExampleShared | src/aoc3.rs:111-121 | The example totals 157 in part one |
| Rucksacks.ExampleBadges | src/aoc3.rs:123-132 | The example totals 70 in part two |
| CampCleanup.ParseSection | src/aoc4.rs:14 | A section number parses exactly when it is a non-empty digit string within `u32`; otherwise the error names it |
| CampCleanup.ParseRange | src/aoc4.rs:11-14 | A missing dash is reported exactly when the assignment has none; a parsed range has both ends within `u32` |
| CampCleanup.ParseAssignmentPair | src/aoc4.rs:2-24 | A missing comma is reported exactly when the line has none; both parsed ranges fit `u32` |
| CampCleanup.ParseOfParts | src/aoc4.rs:2-24 | A line `a-b,c-d` of four section numbers parses to the ranges `a..=b` and `c..=d` |
| CampCleanup.PartsOfParse | src/aoc4.rs:2-24 | Conversely, every line that parses has the form `a-b,c-d` of four section numbers, and the ranges are their values |
| CampCleanup.ParseFormatPair | src/aoc4.rs:2-24 | Writing a pair of `u32` ranges as `a-b,c-d` and parsing it gives the pair back |
| CampCleanup.FullyContains | src/aoc4.rs:38-41 | For well-formed ranges, containment implies overlap |
| CampCleanup.HasOverlap | src/aoc4.rs:62-65 | The two ranges overlap exactly when each starts no later than the other ends |
| CampCleanup.ContainsSymmetric | src/aoc4.rs:38-41 | The containment test is symmetric for all ranges, reversed ones included |
| CampCleanup.ContainsIffWithin | src/aoc4.rs:38-41 | For well-formed ranges the test is symmetric and holds exactly when every section of one range is in the other |
| CampCleanup.OverlapNormalForm | src/aoc4.rs:62-65 | The overlap test is symmetric and holds exactly when each range starts no later than the other ends |
| CampCleanup.OverlapIffShared | src/aoc4.rs:62-65 | For well-formed ranges the test holds exactly when some section is in both |
| CampCleanup.ContainsImpliesOverlap | src/aoc4.rs:38-65 | For well-formed ranges, containment implies overlap |
| CampCleanup.IllFormedContainsWithoutOverlap | src/aoc4.rs:38-65 | With a reversed range, containment can hold without overlap |
| CampCleanup.Count | src/aoc4.rs:44-47 | A count never exceeds the number of pairs |
| CampCleanup.CountZero | src/aoc4.rs:44-47 | The count is 0 exactly when no pair passes the test |
| CampCleanup.CountAll | src/aoc4.rs:44-47 | The count is the number of pairs exactly when every pair passes |
| CampCleanup.CountMonotone | src/aoc4.rs:44-71 | A test implied by another counts at least as many pairs |
| CampCleanup.LineValue | src/aoc4.rs:33-45 | A line succeeds exactly when it parses, and is worth 0 or 1 |
| CampCleanup.Part1 | src/aoc4.rs:28-48 | Succeeds exactly when every line parses; the answer is at most the number of lines; no lines give 0 |
| CampCleanup.Part2 | src/aoc4.rs:52-72 | Succeeds exactly when every line parses; the answer is at most the number of lines; no lines give 0 |
| CampCleanup.Part1Counts | src/aoc4.rs:28-48 | Part one fails as parsing the lines does, and otherwise counts the pairs where one range contains the other |
| CampCleanup.Part2Counts | src/aoc4.rs:52-72 | Part two fails as parsing the lines does, and otherwise counts the overlapping pairs |
| CampCleanup.Part1AtMostPart2 | src/aoc4.rs:28-72 | Both parts fail alike; when every range is well formed, part one never exceeds part two |
| CampCleanup.ExampleCounts | src/aoc4.rs:79-103 | The example counts 2 in part one and 4 in part two |
| CampCleanup.WideExampleCounts | src/aoc4.rs:86-92 | With a two-digit section in the first line, part one counts 3 |
| CampCleanup.ReversedRangeCounts | src/aoc4.rs:38-65 | The line `5-3,4-4` counts in part one but not in part two |

## Left out

- `src/main.rs` is not part of this model: it reads the input files, times the solvers and prints their answers.
- Sums are unbounded natural numbers. The source's `usize` additions could overflow (a panic in debug builds, wrap-around in release builds); that is not modelled. Counts on day 4 and per-rucksack sums on day 3 cannot come near the bound.
- Rust's integer parser also accepts a leading `+`. The model accepts only digit strings.
- Text.Lines follows the current Rust standard library: a `\r` at the very end of the text, with no `\n` after it, stays in the last line. Older versions of `str::lines` stripped it.
- Text is modelled as bytes. UTF-8 is not: `split_at` at a non-boundary panics in Rust but always splits in the model, and `trim` strips only ASCII whitespace, not the other Unicode whitespace Rust strips.
- Panic messages are not modelled; each panic becomes an `Err` value naming the input that caused it.
- `itertools` is not part of this model. `k_smallest` is stated through `Selection.KLargest`, a bounded insertion selector proved to give the first `k` of the descending sort, rather than through the library's heap. `chunks` is stated through `Text.Chunks`.
- Rucksacks.MarkTypes: when it returns an invalid byte, the contents of `seen` are not stated. The source panics there and the table is never read again.
- Rucksacks.CountShared: when it returns an invalid byte, the contents of `seen2` are not stated, for the same reason.
- Rucksacks.CommonPriorities: on an error, neither table's contents are stated, for the same reason.
- Rucksacks.MarkRow: when it returns a badge or an error, the contents of row `i` are not stated. Only the other rows are stated, as unchanged. In the source the table is not read again once a badge is returned or a panic happens.
- Rucksacks.FindBadge: the table's contents are not stated on any path, neither on a badge, an error nor no badge. Only the result is stated. The table is cleared at the start of each group, so nothing carries over between groups.
- Rucksacks.Badge: only the first three lines of a group are read. `chunks(3)` never yields more, so the groups the solver sees always fit.
- CampCleanup.Part1AtMostPart2: the bound between the parts holds only when every range is well formed (start ≤ end). The source does not check this, and CampCleanup.ReversedRangeCounts shows the bound failing without it.
- The examples are built by joining their lines with line feeds rather than written out as one string literal; the texts are the same.
