# Advent of Code 2022, days 1 to 6, in Dafny

This project models the puzzle solvers of a Rust Advent of Code 2022
repository and proves properties of them. Each solver reads the puzzle
text and computes one answer per part:

- `Calories` (`src/day1.rs`) splits the input into elves at blank lines and
  totals each elf's calories. It gives the largest total and the sum of
  the three largest.
- `RockPaperScissors` (`src/day2.rs`) scores a strategy guide with a
  dominance table. The second column is read either as a move or as the
  wanted outcome.
- `RockPaperScissorsArith` (`src/day2_better.rs`) computes the same scores
  with modular arithmetic on move codes 0, 1 and 2. It is proved against
  the table-driven model.
- `Rucksacks` (`src/day3.rs`) finds the item shared by a rucksack's two
  halves, and the badge shared by each group of three rucksacks, and
  scores both by letter.
- `Intervals` (`src/day4.rs`) reads pairs of section ranges and counts the
  pairs where one range contains the other, or where they overlap.
- `Crates` (`src/day5.rs`) reads a drawing of crate stacks and a list of
  move instructions, executes the moves, and spells the top crates. Part
  1 moves crates one at a time; part 2 moves them as a group.
- `Markers` (`src/day6.rs`) finds the first position in a stream at which
  the last 4 (or 14) characters are all different.

Two shared modules support the solvers. `Text` models the slice of Rust's
`str` API the solvers use: `split`, `split_terminator`, `lines`,
`split_ascii_whitespace` and `parse::<u32>`. `Results` holds `Option` and
`Result`.

A Rust panic (`expect`, `unwrap`, `panic!`, an index out of bounds, an
unsigned underflow in the overflow-checked build) is a value in the model. It is `None` where the source
only panics, and `Err(reason)` where the source returns an error message.
In `Crates`, the move loops report `Failed(reason)` for an error the
source returns, and `Aborted` for the panic of a stack number 0. Integers
are unbounded; the places where the source's `u32` arithmetic matters are
listed under "Left out".

## Model

| member | source | states |
|---|---|---|
| Calories.ParseElves | src/day1.rs:6-17 | There is one elf per section that `split_terminator("\n\n")` yields. |
| Calories.SectionTotalSkipsJunk | src/day1.rs:12 | A line that is not a `u32` counts 0 calories and is not an error: removing it from a section leaves the section's total unchanged. |
| Calories.SectionTotalAppend | src/day1.rs:10-13 | A section's total is the sum of the totals of any two runs of lines it is cut into. |
| Calories.ParseRenderTrailing | src/day1.rs:6-17 | A rendered inventory of at least one group, followed by a trailing blank line, still parses to one elf per group carrying the group's sum, so the trailing blank line adds no empty elf. |
| Calories.SectionTotalOfDecimals | src/day1.rs:10-13 | A section whose lines are `u32` numbers totals to the sum of those numbers. |
| Calories.DecimalLinesPlain | src/day1.rs:10-12 | A rendered item line is non-empty and holds no line break, so `lines` reads it back as one line. |
| Calories.ParseRender | src/day1.rs:6-17 | Parsing inverts rendering. An inventory of non-empty groups of `u32` items, written one per line with blank lines between groups, parses to one elf per group carrying the group's sum. |
| Calories.MostCalories | src/day1.rs:18-23 | The result is 0 for no elves. Otherwise it is at least every elf's calories and equal to some elf's calories. |
| Calories.InsertPermutes | src/day1.rs:26 | One insertion step of the descending sort adds exactly the inserted elf to the bag of elves. |
| Calories.InsertKeepsOrder | src/day1.rs:26 | Inserting into a list sorted by descending calories keeps it sorted. |
| Calories.SortDescending | src/day1.rs:26 | `sort_by_key(Reverse(calories))` gives a permutation of the input whose calories are non-increasing. |
| Calories.SortCount | src/day1.rs:26 | Sorting keeps, for every threshold, the number of elves whose calories reach it. |
| Calories.TopThreeCalories | src/day1.rs:25-29 | The result is `None` exactly when there are fewer than three elves, which is where the slice `[0..3]` panics. Otherwise it is the calorie sum of three distinct elves of the input. |
| Calories.SortedHeadDominates | src/day1.rs:26-28 | Any three distinct elves have at most the calories of the first three after sorting. |
| Calories.TopThreeIsLargest | src/day1.rs:25-29 | The part 2 answer is at least the sum of every choice of three distinct elves, so it is the largest such sum. |
| Calories.TopThreeAtLeastMost | src/day1.rs:18-29 | With three or more elves, the part 2 answer is at least the part 1 answer. |
| Calories.Example | src/day1.rs:54-81 | The test inventory parses to elves with 6000, 4000, 11000, 24000 and 10000 calories. |
| Calories.ExampleMost | src/day1.rs:84-103 | The largest total of the test inventory is 24000. |
| Calories.ExampleSorted | src/day1.rs:106-125 | The test elves sort to 24000, 11000, 10000, 6000, 4000. |
| Calories.ExampleTop | src/day1.rs:106-125 | The three largest test totals sum to 45000. |
| RockPaperScissors.Score | src/day2.rs:11-17 | A shape is worth 1 to 3 points. |
| RockPaperScissors.Beats | src/day2.rs:22-28 | A move beats another exactly when its shape value is one more than the other's, cyclically modulo 3. |
| RockPaperScissors.Trichotomy | src/day2.rs:22-28 | For any two moves, exactly one holds: the first beats the second, they are equal, or the second beats the first. |
| RockPaperScissors.BeatsIsCyclic | src/day2.rs:22-28 | Every move beats exactly one move and is beaten by exactly one, and the relation is a three-cycle. |
| RockPaperScissors.ScoreRound | src/day2.rs:30-39 | A round scores the shape value of the second move plus the outcome bonus for the second player, a value from 1 to 9. |
| RockPaperScissors.FitStrategy | src/day2.rs:80-98 | The fitted move beats the opponent's move for Win, equals it for Draw and loses to it for Lose. |
| RockPaperScissors.FitInvertsOutcome | src/day2.rs:80-98 | Fitting a move to an outcome and reading off a round's outcome are mutually inverse. |
| RockPaperScissors.FitInjective | src/day2.rs:80-98 | Different wanted outcomes against the same move give different moves. |
| RockPaperScissors.FittedRoundScore | src/day2.rs:117-123 | A fitted round scores the fitted move's shape plus the bonus of the wanted outcome. |
| RockPaperScissors.ParseMove | src/day2.rs:52-62 | A and X are Rock, B and Y are Paper, C and Z are Scissors, in both directions. Every other token panics. |
| RockPaperScissors.ParseStrategy | src/day2.rs:71-78 | X, Y and Z are Lose, Draw and Win, in both directions. Every other token panics. |
| RockPaperScissors.ParseRound | src/day2.rs:41-50 | A line is read exactly when it has at least two whitespace-separated tokens and the first two are moves. |
| RockPaperScissors.ParsePartTwo | src/day2.rs:100-109 | A line is read exactly when it has at least two tokens, the first a move and the second an outcome letter. |
| RockPaperScissors.TotalPartOne | src/day2.rs:111-115 | The total is defined exactly when every line is a round, and lies between 1 and 9 points per line. |
| RockPaperScissors.TotalPartTwo | src/day2.rs:117-126 | The total is defined exactly when every line is a move and an outcome, and lies between 1 and 9 points per line. |
| RockPaperScissors.TotalPartOneAppend | src/day2.rs:112 | The total of two concatenated guides is the sum of their totals, and fails exactly when one of them fails. |
| RockPaperScissors.TotalPartTwoAppend | src/day2.rs:118-123 | The same additivity holds for the outcome reading. |
| RockPaperScissors.PartOne | src/day2.rs:111-115 | The part 1 score is defined exactly when every line of the input is a round, and lies between 1 and 9 points per line. |
| RockPaperScissors.PartTwo | src/day2.rs:117-126 | The part 2 score is defined exactly when every line is a move and an outcome letter, and lies between 1 and 9 points per line. |
| RockPaperScissors.ExampleRounds | src/day2.rs:169-183 | The test lines read as the rounds and the (move, outcome) pairs the tests expect. |
| RockPaperScissors.Example | src/day2.rs:140-198 | The test guide scores 15 in part 1 and 12 in part 2. |
| RockPaperScissorsArith.TruncRem3Characterised | src/day2_better.rs:62 | Rust's `%` by 3 truncates toward zero. It differs from the Euclidean remainder exactly for negative dividends that are not multiples of 3. |
| RockPaperScissorsArith.ParseCode | src/day2_better.rs:22-32 | A token's code lies in 0..2 and exists exactly for the six letters the table-driven parser accepts. |
| RockPaperScissorsArith.ParseCodeAgrees | src/day2_better.rs:20-32 | A move letter's code is the move's index in `MOVES`, and an outcome letter's code is the outcome's index. |
| RockPaperScissorsArith.ScoreIsCodePlusOne | src/day2_better.rs:11-20 | A move's shape score is its code plus one. |
| RockPaperScissorsArith.SecondWinsIsBeats | src/day2_better.rs:43 | The test `(first + 1) % 3 == second` holds exactly when the second move beats the first in the dominance table. |
| RockPaperScissorsArith.LineScoreOne | src/day2_better.rs:42-49 | For codes in 0..2, a line scores 1 to 9 points: the shape value plus 6 exactly when the second code follows the first cyclically, 3 exactly when they are equal, and 0 exactly when the first follows the second. |
| RockPaperScissorsArith.LineScoreOneAgrees | src/day2_better.rs:42-49 | For every pair of moves, the arithmetic part 1 score equals the table-driven round score. |
| RockPaperScissorsArith.LineScoreTwoAgrees | src/day2_better.rs:62 | With a non-negative remainder, the part 2 formula equals the table-driven score of the fitted round, for every move and outcome. |
| RockPaperScissorsArith.AsWrittenDiffersOnlyAtZero | src/day2_better.rs:62 | The formula as written differs from the corrected one exactly on Rock with Lose (codes 0 and 0). |
| RockPaperScissorsArith.AsWrittenLosesToRock | src/day2_better.rs:62 | On Rock with Lose, the formula as written scores 0 and the corrected one scores 3. |
| RockPaperScissorsArith.ParseCodes | src/day2_better.rs:38-40 | A line yields two codes, each in 0..2, exactly when the table-driven parser reads it as two moves. |
| RockPaperScissorsArith.ParseCodesAgrees | src/day2_better.rs:38-40 | The codes are those of the table-driven reading, whether the second column is read as a move or as an outcome. |
| RockPaperScissorsArith.TotalWith | src/day2_better.rs:34-65 | A guide total with any line score is defined exactly when every line yields two codes. |
| RockPaperScissorsArith.TotalWithAgrees | src/day2_better.rs:34-65 | Two line scores that agree on every line of a guide give the same total. |
| RockPaperScissorsArith.TotalOne | src/day2_better.rs:34-52 | The arithmetic part 1 total over a list of lines is defined exactly when every line reads as two moves; otherwise `expect("Valid Move")` or `parse_move` panics. |
| RockPaperScissorsArith.TotalTwoAsWritten | src/day2_better.rs:54-65 | The as-written part 2 total is defined exactly when every line reads as two moves, the same guides part 1 accepts. |
| RockPaperScissorsArith.TotalTwo | src/day2_better.rs:54-65 | The corrected part 2 total is defined exactly when every line reads as two moves. |
| RockPaperScissorsArith.PartOne | src/day2_better.rs:34-52 | `part1` fails on exactly the guides the table-driven part 1 rejects and otherwise gives the same score. |
| RockPaperScissorsArith.PartTwoAsWritten | src/day2_better.rs:54-65 | `part2` as written accepts exactly the guides `part1` accepts, and on a guide with no line read as codes (0, 0) it scores like the corrected formula. |
| RockPaperScissorsArith.PartTwo | src/day2_better.rs:54-65 | With the corrected remainder, `part2` accepts exactly the guides the table-driven part 1 accepts, and equals the table-driven part 2 wherever that one is defined. |
| RockPaperScissorsArith.TotalOneAgrees | src/day2_better.rs:34-52 | The arithmetic part 1 equals the table-driven part 1 on every guide, including where it fails. |
| RockPaperScissorsArith.TotalTwoAgrees | src/day2_better.rs:54-65 | The corrected arithmetic part 2 equals the table-driven part 2 on every guide that the latter accepts. The arithmetic reading also accepts A, B and C in the second column. |
| RockPaperScissorsArith.AsWrittenAgreesAwayFromZero | src/day2_better.rs:54-65 | On a guide with no Rock-with-Lose line, part 2 as written equals the corrected part 2. |
| RockPaperScissorsArith.Example | src/day2_better.rs:81-96 | The test guide scores 15 in part 1 and 12 in part 2 as written. |
| RockPaperScissorsArith.ExampleAX | src/day2_better.rs:54-65 | The guide "A X" scores 0 as written, and 3 both corrected and table-driven. |
| RockPaperScissorsArith.LoseToRock | src/day2_better.rs:54-65 | Any line read as Rock with Lose totals 0 as written, and 3 corrected and table-driven. |
| Rucksacks.FromLine | src/day3.rs:12-27 | An odd-length line panics ("Compartments different sizes"). Otherwise the two compartments have equal length and concatenate to the line. |
| Rucksacks.FromLineOfHalves | src/day3.rs:12-27 | Two equal-length halves, written one after the other, read back as the same rucksack. |
| Rucksacks.Items | src/day3.rs:22-24 | The hash set of a half holds exactly the half's characters. |
| Rucksacks.Find | src/day3.rs:30-35 | `find` gives the first index whose character is in the set; it gives nothing exactly when no character is. |
| Rucksacks.CommonItem | src/day3.rs:30-35 | A found item lies in both compartments. The search fails ("Should be a match") exactly when the compartments share no item. |
| Rucksacks.CommonItemIsFirst | src/day3.rs:30-35 | No earlier item of the first compartment is in the second. |
| Rucksacks.CommonItemAt | src/day3.rs:30-35 | Conversely, the first shared item of the first compartment is the one found. |
| Rucksacks.CharScore | src/day3.rs:38-44 | Lower-case letters score 1 to 26 and upper-case letters 27 to 52, and every score is at least 1. A non-upper-case character below 'a' underflows the `u32` subtraction, which panics in the overflow-checked build. |
| Rucksacks.CharScoreBijective | src/day3.rs:38-44 | Scoring is a bijection between the 52 letters and 1..52. |
| Rucksacks.CharScoreInjective | src/day3.rs:38-44 | Two letters with the same score are the same letter. |
| Rucksacks.TotalOne | src/day3.rs:46-52 | A defined part 1 total is at least one point per line. |
| Rucksacks.PartOne | src/day3.rs:46-52 | `part1` is defined exactly when every line of the input has a score, and is then at least one point per line. |
| Rucksacks.TotalOneDefined | src/day3.rs:46-52 | The part 1 total is defined exactly when every line has a scorable common item. |
| Rucksacks.TotalOneAppend | src/day3.rs:46-52 | The part 1 total of concatenated line lists is the sum of their totals. |
| Rucksacks.GroupFrom | src/day3.rs:56-66 | A group is formed exactly when the text has three lines of even length. Its rucksacks hold exactly those three lines. |
| Rucksacks.HalvesCoverContents | src/day3.rs:74-75 | Being in one half's set or the other's is being in the rucksack. |
| Rucksacks.GroupItem | src/day3.rs:69-87 | A found badge lies in all three rucksacks. |
| Rucksacks.GroupItemSearch | src/day3.rs:69-87 | The search fails ("No match") exactly when the three rucksacks share no item. A shared item in the first half of the first rucksack is found there before its second half is searched. |
| Rucksacks.GroupItemAt | src/day3.rs:69-87 | The first item of the first half that the other two rucksacks hold is the badge. |
| Rucksacks.GroupItemAtSecond | src/day3.rs:69-87 | When no item of the first half is held by both other rucksacks, the first item of the second half that they both hold is the badge (the `unwrap_or_else` branch). |
| Rucksacks.Chunks | src/day3.rs:93 | Every chunk has between 1 and 3 lines, and every chunk but the last has exactly 3. |
| Rucksacks.FlattenChunks | src/day3.rs:93 | The chunks, in order, are exactly the lines. |
| Rucksacks.TotalTwo | src/day3.rs:90-103 | The part 2 total is defined exactly when every chunk, joined with '\n', forms a group with a scorable badge. |
| Rucksacks.GroupOfChunk | src/day3.rs:93-99 | Three lines joined with '\n' split back into the same lines, and form a group exactly when each has even length. |
| Rucksacks.ShortChunkFails | src/day3.rs:56-66 | A last chunk of one or two lines panics with "Not enough sacks". |
| Rucksacks.ChunksLast | src/day3.rs:93 | When 3 does not divide the number of lines, the last chunk is the remaining one or two lines. |
| Rucksacks.WholeGroups | src/day3.rs:90-103 | A part 2 total over lines free of '\n' needs a number of lines that is a multiple of 3. |
| Rucksacks.PartTwo | src/day3.rs:90-103 | `part2` answers only when the input's lines form whole groups of three. |
| Rucksacks.ExampleHalves | src/day3.rs:119-124 | The first test line splits into "vJrwpWtwJgWr" and "hcsFMMfFFhFp". |
| Rucksacks.ExampleCommonItem | src/day3.rs:127-132 | Its common item is 'p'. |
| Rucksacks.ExampleScores | src/day3.rs:135-140 | 'a', 'z', 'A' and 'Z' score 1, 26, 27 and 52. |
| Rucksacks.ExampleOne | src/day3.rs:143-151 | The test input scores 157 in part 1. |
| Rucksacks.ExampleGroup1 | src/day3.rs:154-162 | The first test group's badge is 'r', which scores 18. |
| Rucksacks.ExampleTwo | src/day3.rs:165-175 | The test input scores 70 in part 2. |
| Intervals.Contains | src/day4.rs:38-40 | A range that contains another holds every point of it. |
| Intervals.Overlaps | src/day4.rs:42-44 | Two ranges that share a point overlap. |
| Intervals.ContainsIsInclusion | src/day4.rs:38-40 | For a well-formed range `b`, `a.contains(b)` holds exactly when every point of `b` lies in `a`. |
| Intervals.OverlapsIsSharing | src/day4.rs:42-44 | For well-formed ranges, `overlaps` holds exactly when they share a point. |
| Intervals.ContainsReflexiveAntisymmetric | src/day4.rs:38-40 | Every range contains itself, and two ranges contain each other exactly when they are equal. |
| Intervals.ContainsTransitive | src/day4.rs:38-40 | Containment is transitive. |
| Intervals.OverlapsSymmetric | src/day4.rs:42-44 | Overlap is symmetric. |
| Intervals.ContainsImpliesOverlaps | src/day4.rs:38-44 | Containing a well-formed range implies overlapping it. |
| Intervals.OverlapQuestionSimplifies | src/day4.rs:82 | For a well-formed first range, the extra test `second.contains(first)` of part 2 changes nothing. |
| Intervals.OverlapQuestionOnReversedRange | src/day4.rs:82 | For a reversed range such as 5-1, the extra test does change the answer. |
| Intervals.Compare | src/day4.rs:11-18 | `partial_cmp` is Equal exactly for equal ranges, Less exactly when the first range is lexicographically smaller on (min, max), and Greater exactly when it is larger. |
| Intervals.CompareIsLexicographic | src/day4.rs:11-34 | `partial_cmp` orders ranges by `min`, then by `max`. It is Equal exactly on equal ranges, and `lt`, `le`, `gt` and `ge` agree with it and with each other. |
| Intervals.CompareIsTotalOrder | src/day4.rs:11-34 | The order is total and transitive. |
| Intervals.OrderingExamples | src/day4.rs:102-111 | 6-9 is greater than 5-10, and 6-10 is greater than 6-9. |
| Intervals.Numbers | src/day4.rs:51 | The pieces that parse as numbers give at most one number each, and each is at most the largest `u32`. |
| Intervals.ParseInterval | src/day4.rs:50-57 | The only error is "Not enough numbers", and the bounds read are `u32`s. |
| Intervals.ParseFormat | src/day4.rs:50-57 | A range of `u32`s written as "min-max" parses back to itself. |
| Intervals.ParseFormatPair | src/day4.rs:63-66 | A line "a-b,c-d" of `u32`s reads back as its two ranges. |
| Intervals.ParsePair | src/day4.rs:64-66 | A line that reads as two ranges holds a ',' and both ranges have `u32` bounds. |
| Intervals.ParseIgnoresThirdNumber | src/day4.rs:51 | Because of `take(2)`, "a-b-c" reads as a-b. |
| Intervals.ParseNeedsTwoLeadingNumbers | src/day4.rs:51-54 | A non-number among the first two pieces is not made up for by a third piece. |
| Intervals.Tally | src/day4.rs:60-86 | A count is at most the number of lines. |
| Intervals.Count | src/day4.rs:60-86 | A count over lines is at most the number of lines. |
| Intervals.PartOne | src/day4.rs:60-72 | `part1` is defined exactly when every line of the input reads as two ranges, and is at most the number of lines. |
| Intervals.PartTwo | src/day4.rs:74-86 | `part2` is defined on exactly the inputs `part1` is, and is at most the number of lines. |
| Intervals.TallyDefined | src/day4.rs:64-66 | A count is defined exactly when every line holds two ranges. |
| Intervals.CountDefined | src/day4.rs:60-72 | A count over the text's lines is defined exactly when every line parses as a pair. |
| Intervals.TallyAppend | src/day4.rs:60-86 | Counting is additive over concatenated lists of lines. |
| Intervals.ContainedAtMostOverlapping | src/day4.rs:60-86 | Over well-formed pairs, the containment count is at most the overlap count. |
| Intervals.PartOneAtMostPartTwo | src/day4.rs:60-86 | When every parsed range is well formed, the part 1 answer is at most the part 2 answer. |
| Intervals.ExampleParse | src/day4.rs:154-157 | "2-4" parses as the range 2-4. |
| Intervals.ExampleOverlaps | src/day4.rs:114-151 | These are the containment and overlap cases of the tests. |
| Intervals.Example | src/day4.rs:160-181 | The test input answers 2 in part 1 and 4 in part 2. |
| Crates.NewBoard | src/day5.rs:37-41 | A new board has `num` empty stacks. |
| Crates.ReversedTwice | src/day5.rs:49-62 | Reversing twice gives the original, so popping a buffer filled by pops restores the order. |
| Crates.ReversedKeepsCrates | src/day5.rs:63-71 | Reversing keeps the crates. |
| Crates.MoveOneByOne | src/day5.rs:63-71 | The one-at-a-time loop keeps the number of stacks, and can end other than normally only when at least one crate is asked for. |
| Crates.TakeIntoBuffer | src/day5.rs:49-57 | The buffer loop keeps the number of stacks. With stack number 0 and at least one crate asked for, it panics. |
| Crates.Execute | src/day5.rs:42-74 | Executing an instruction keeps the board's stack count. |
| Crates.MoveOneByOneEffect | src/day5.rs:63-71 | Between two different stacks, the loop moves the source's top `min(num, size)` crates onto the destination, reversed. It fails with "Not enough items" exactly when the source holds fewer than `num` crates. |
| Crates.MoveOneByOneInPlace | src/day5.rs:63-71 | Moving a stack onto itself one crate at a time leaves every stack unchanged. It fails only when the stack is empty and a crate is asked for. |
| Crates.TakeIntoBufferEffect | src/day5.rs:49-57 | The buffer receives the source's top crates, top first, and the source loses them. It fails with "Not enough items" exactly when too few crates are there. |
| Crates.DrainBufferEffect | src/day5.rs:59-62 | Draining the whole buffer puts its crates on the destination in reverse buffer order, and never fails with "Not enough in temp". |
| Crates.ExecuteRejectsOutside | src/day5.rs:43-47 | A stack number beyond the board is "Invalid location", and nothing moves. |
| Crates.ExecuteOneByOne | src/day5.rs:63-71 | Part 1's instruction moves the top crates reversed. It fails with "Not enough items" when the source runs out, and keeps the crates moved before that. |
| Crates.ExecuteInOrder | src/day5.rs:49-62 | Part 2's instruction moves the top crates in their order. With too few crates it fails with "Not enough items", and the crates taken into the buffer are lost. |
| Crates.ExecuteInPlace | src/day5.rs:42-74 | An instruction whose two stacks are the same existing stack leaves the board as it was and succeeds, provided the stack holds at least `num` crates, or, when moving one at a time, is not empty. |
| Crates.InOrderInPlace | src/day5.rs:49-62 | A group moved onto its own stack comes back in order. |
| Crates.ExecuteStackZero | src/day5.rs:52-69 | When at least one crate is asked for, stack number 0 makes `from - 1` or `to - 1` wrap below zero and the instruction panics: always for `from = 0`. For `to = 0` with a source of `n` crates, one at a time panics at the first push, so exactly when `n > 0`; in order the pushes follow all `num` pops, so it panics exactly when `num <= n`; otherwise "Not enough items" comes first. |
| Crates.CratesUpdate | src/day5.rs:31-34 | Replacing one stack exchanges its crates in the board's bag of crates. |
| Crates.MoveConserves | src/day5.rs:42-74 | Splitting a stack and putting the moved part on another keeps the bag of crates. |
| Crates.InOrderConserves | src/day5.rs:49-62 | A successful group move keeps the bag of crates. |
| Crates.OneByOneConserves | src/day5.rs:63-71 | A successful one-at-a-time move keeps the bag of crates. |
| Crates.ExecuteConserves | src/day5.rs:42-74 | Every successful instruction keeps the bag of crates. |
| Crates.MoveOneByOneFrame | src/day5.rs:63-71 | The one-at-a-time loop touches only the two named stacks. |
| Crates.TakeIntoBufferFrame | src/day5.rs:49-57 | The buffer-filling loop touches only the source stack. |
| Crates.DrainBufferFrame | src/day5.rs:59-62 | The buffer-draining loop touches only the destination stack. |
| Crates.ExecuteFrame | src/day5.rs:42-74 | Every stack other than the two named ones is unchanged, whatever the outcome. |
| Crates.DigitRunSpan | src/day5.rs:19 | `\d+` at a position takes the whole run of digits there. |
| Crates.MatchAtShape | src/day5.rs:19 | A match of `move (\d+) from (\d+) to (\d+)` starts with "move " and captures three non-empty digit strings. |
| Crates.FirstMatchIsLeftmost | src/day5.rs:22 | `captures_iter(s).next()` finds the match at the least position that has one. It finds none ("No matches") exactly when no position has one. |
| Crates.ParseInstruction | src/day5.rs:17-28 | The errors are "No matches" and "Not a num", and a parsed instruction's fields are `u32`s. |
| Crates.MatchFormat | src/day5.rs:19 | A written instruction matches, capturing the three numbers as written. |
| Crates.ParseFormatInstruction | src/day5.rs:17-28 | An instruction of `u32`s written as "move n from a to b" parses back to itself. |
| Crates.ParseFormatOverflow | src/day5.rs:24-26 | A written number beyond `u32` is "Not a num". |
| Crates.ParseSkipsPrefix | src/day5.rs:22 | Text without an 'm' before an instruction does not change what it parses to, since the search is unanchored. |
| Crates.StackCount | src/day5.rs:83-90 | The count is read exactly when the number line has a last word that parses as a `u32`, and it is that word's value. |
| Crates.FillRowEffect | src/day5.rs:95-101 | One row fails with "Not enough chars" exactly when it ends before the last stack's column. Otherwise each stack gains the row's non-blank letter at its column. |
| Crates.FillRowsEffect | src/day5.rs:94-102 | Filling fails exactly when some row is too short. Otherwise each stack gains its column's letters from the bottom row up. |
| Crates.FillRowsFails | src/day5.rs:94-102 | A too-short row anywhere fails the whole drawing, with "Not enough chars". |
| Crates.FillRowsContents | src/day5.rs:94-102 | With every row wide enough, each stack is its column read bottom-up. |
| Crates.BuildBoardReads | src/day5.rs:92-104 | A board of `num` stacks is built exactly when every row is wide enough, and stack `k` holds column `k`'s letters bottom-up. |
| Crates.ParseBoardReads | src/day5.rs:80-105 | The drawing parses exactly when its last line gives a stack count and every row above is wide enough. Each stack then lists its column's crates from the bottom up. |
| Crates.ReadParsed | src/day5.rs:120 | Lines that each parse are read as their instructions, in order. |
| Crates.ReadWritten | src/day5.rs:118-122 | Written instructions of `u32`s read back as themselves. |
| Crates.ReadInstructionsAppend | src/day5.rs:120 | Reading is additive over concatenated line lists. |
| Crates.ReadDropsNonInstruction | src/day5.rs:120 | A line that does not parse is dropped silently, not reported. |
| Crates.RunAllConserves | src/day5.rs:127-131 | Running all instructions successfully keeps the bag of crates and the number of stacks. |
| Crates.RunAllAppend | src/day5.rs:127-131 | Running two instruction lists in turn is running their concatenation. |
| Crates.ReportOfFilled | src/day5.rs:133-137 | When no stack is empty, the answer has one letter per stack: that stack's top crate. |
| Crates.ReportFromCrates | src/day5.rs:133-137 | The answer's letters are crates on the board. |
| Crates.SolveSpellsDrawnCrates | src/day5.rs:127-151 | An answer, in either part, is made of crates from the drawing. |
| Crates.ParseInputReads | src/day5.rs:108-125 | Parsing inverts writing the input: rows at least `4 * num - 2` wide above a number line whose last word is `num`, a blank line, and one or more written `u32` instructions are read back as the board the rows show and exactly those instructions. |
| Crates.FormatInstructionPlain | src/day5.rs:17-28 | A written instruction is one non-empty line. |
| Crates.ParseInput | src/day5.rs:108-125 | A parsed board has `num` stacks, the input held a blank line, and the only errors are "Not a board" and "No instructions". |
| Crates.ParseBoard | src/day5.rs:80-105 | A parsed board has `num` stacks, and the only errors are "Not enough lines", "Not enough characters", "Not a number" and "Not enough chars". |
| Crates.BuildBoard | src/day5.rs:92-104 | A built board has as many stacks as it was made with. |
| Crates.RunAll | src/day5.rs:129-131 | Running every instruction to the end keeps the stack count. |
| Crates.Report | src/day5.rs:133-137 | The answer has at most one letter per stack, and exactly one when no stack is empty. |
| Crates.Solve | src/day5.rs:127-151 | An answer needs the input to parse, and has at most as many letters as the drawing has stacks. |
| Crates.PartOne | src/day5.rs:127-138 | An answer's letters form a sub-multiset of the crates the drawing shows. |
| Crates.PartTwo | src/day5.rs:140-151 | An answer's letters form a sub-multiset of the crates the drawing shows. |
| Crates.ExampleExecute | src/day5.rs:167-181 | Moving one crate from stack 1 to stack 2 moves 'Z'. |
| Crates.ExampleBoard | src/day5.rs:184-201 | The test drawing gives stacks "ZN", "MCD" and "P". |
| Crates.ExampleInstruction | src/day5.rs:204-215 | "move 1 from 2 to 1" parses as that instruction. |
| Crates.ExampleParse | src/day5.rs:218-274 | The test input gives the test board and its four instructions. |
| Crates.ExampleRunOneByOne | src/day5.rs:277-288 | Part 1 on the test input ends with stacks "C", "M" and "PDNZ". |
| Crates.ExampleRunInOrder | src/day5.rs:291-302 | Part 2 on the test input ends with stacks "M", "C" and "PZND". |
| Crates.ExampleAnswers | src/day5.rs:277-302 | The test answers are "CMZ" and "MCD". |
| Markers.FirstMarkerFromIsLeast | src/day6.rs:3-19 | The reference answer is 0 when no marker ends before the end of the input. Otherwise it is the least position at which a marker ends. |
| Markers.FirstMarkerSkips | src/day6.rs:6-16 | Positions before which no marker ends can be skipped. |
| Markers.Position | src/day6.rs:10-12 | `find_position` gives the first index of the character, or nothing when the character does not occur. |
| Markers.NotDistinctExtends | src/day6.rs:6-16 | A window that repeats a character still repeats it when extended by one. |
| Markers.AdvanceKeepsLongest | src/day6.rs:10-15 | The update of `unique_since` keeps it at the start of the longest run of different characters ending at the scan position. |
| Markers.FindMarker | src/day6.rs:3-19 | The scan returns the least position before the end at which the previous `L` characters are all different, and 0 when there is none. This is the reference answer. |
| Markers.PartOne | src/day6.rs:3-19 | Part 1 is the reference answer with a window of 4. |
| Markers.PartTwo | src/day6.rs:21-37 | Part 2 is the reference answer with a window of 14. |
| Markers.EndMarkerNotReported | src/day6.rs:6-18 | A marker that completes exactly at the end of the input is not reported: "abcd" answers 0. |
| Markers.FirstMarkerAt | src/day6.rs:3-19 | A position before the end where a marker ends, with no earlier one, is the answer. |
| Markers.ExampleStreams | src/day6.rs:53-65 | The four test streams answer 7, 5, 6 and 10. |
| Text.Split | src/day5.rs:109 | `split` always yields at least one piece. |
| Text.SplitTerminator | src/day1.rs:8 | `split_terminator` yields `split`'s pieces, less the last one when it is empty. |
| Text.Lines | src/day1.rs:11 | No line holds a line break. |
| Text.LinesPlain | src/day1.rs:11 | The pieces that `split_terminator` cuts at line breaks hold no line break. |
| Text.IndexOfLeftmost | src/day4.rs:51 | The pattern search finds the leftmost occurrence, and finds none exactly when the pattern does not occur. |
| Text.SplitJoin | src/day5.rs:109 | `split` loses nothing: the pieces joined with the pattern give the input, and no piece contains the pattern. |
| Text.SplitOfJoin | src/day5.rs:109 | Pieces free of the pattern, joined with it, split back into the same pieces. |
| Text.SplitTerminatorJoin | src/day1.rs:8 | `split_terminator` pieces glue back to the input, with the dropped trailing terminator restored. |
| Text.LinesOfJoin | src/day1.rs:11 | Lines without '\n', joined with '\n', are read back by `lines`. A last empty line is not read back. |
| Text.SplitAtBlankLine | src/day5.rs:109 | A drawing and an instruction list of non-empty lines, separated by a blank line, split into exactly those two parts. |
| Text.Tokens | src/day2.rs:42 | `split_ascii_whitespace` yields at most one token per character of the text, since every token holds at least one. |
| Text.TokensNone | src/day2.rs:42 | `split_ascii_whitespace` yields no token exactly when the text is all ASCII whitespace. |
| Text.TokensAreWords | src/day2.rs:42 | `split_ascii_whitespace` gives non-empty tokens without whitespace. |
| Text.TokensAppend | src/day5.rs:86-87 | Tokenising text that ends in whitespace, and then more text, tokenises each part. |
| Text.LastToken | src/day5.rs:86-87 | The last token of a line ending in a word and then whitespace is that word. |
| Text.DecimalValue | src/day1.rs:12 | A printed number is all digits and reads back as its value. |
| Text.ParseU32 | src/day1.rs:12 | `parse::<u32>` accepts an optional '+' and then one or more digits whose value fits in 32 bits, and nothing else. |
| Text.ParseDecimal | src/day1.rs:12 | Every `u32` survives printing and parsing, and a printed number beyond `u32` is rejected. |

## Left out

- File reading, `println!` and the `solve`/`part1`/`part2` wrappers that only read a file and print. The model's `PartOne` and `PartTwo` take the input text as a parameter. `src/main.rs` only calls them and is not part of this model.
- `u32` and `i32` overflow. Sums of calories, scores and counts are unbounded `nat`s. Overflow panics in a debug build and wraps in a release build, and only inputs far beyond puzzle size reach it. The same goes for `count() as u32` in `src/day4.rs`, `i as u32` in `src/day6.rs`, and `4 * num` in `Board::from_str`.
- Text.Lines: models `lines` for plain '\n' line ends; the '\r' that `lines` also strips before a '\n' is not modelled.
- Rucksacks.CharScore: follows the overflow-checked (debug) build, where `c as u32 - 'a' as u32 + 1` in `src/day3.rs` panics for a character below 'a' that is not upper case; in a release build the subtraction wraps and `part1`/`part2` return a wrapped sum instead of panicking.
- Rucksacks.CharScore: `is_uppercase` is modelled for ASCII letters only. A non-ASCII upper-case letter is scored as if lower case here.
- Byte and character indexing are taken to coincide. `&s[0..len/2]` in `src/day3.rs` and `input[unique_since..i]` in `src/day6.rs` slice by bytes. This agrees with the model on ASCII input only; on other input the source may panic at a character boundary.
- Crates.ParseInstruction: `\d` is read as the ASCII digits. The regex crate's Unicode `\d` also matches other decimal digits, which `parse` then rejects as "Not a num".
- Calories.SortDescending: the order of elves with equal calories is not stated by any contract. The insertion sort keeps them in input order, like the source's stable sort, but only calories reach the answer.
- Intervals.Compare: `Interval<T>` is generic over numeric types. Only `u32` is used, so `partial_cmp` never yields `None` and is modelled as a total comparison.
- Rucksacks.Items: the `HashSet` fields of a rucksack are modelled as membership in the half, since only `contains` is used.
- Crates.ParseInput: `split("\n\n")` always yields a first piece, so the "Malformed input" error cannot happen and is not modelled. Text after a second blank line is ignored, as in the source.
- Crate stacks hold `char`s. The source stores one-character `String`s, and every crate pushed is one character.
- Markers.FindMarker: a marker that completes exactly at the end of the stream is not reported (see `Markers.EndMarkerNotReported`). This is modelled as written and not treated as a defect, because the puzzle promises that a marker occurs inside the stream.

## Findings

| source | as written | input that shows it | evidently intended | confidence | as-written member | corrected member |
|---|---|---|---|---|---|---|
| src/day2_better.rs:62 | `((second - 1) + first) % 3` with Rust's truncating `%` on `i32`, which is -1 for Rock with Lose (first 0, second 0) | the guide "A X": Rock against Rock-with-Lose, where the move to play is Scissors | a remainder in 0..2, so the played move is Scissors and the line scores 3 (shape 3 plus 0 for the loss) instead of 0 | not executed | RockPaperScissorsArith.LineScoreTwoAsWritten, RockPaperScissorsArith.TotalTwoAsWritten, RockPaperScissorsArith.AsWrittenLosesToRock, RockPaperScissorsArith.ExampleAX | RockPaperScissorsArith.LineScoreTwo, RockPaperScissorsArith.TotalTwo, RockPaperScissorsArith.LineScoreTwoAgrees, RockPaperScissorsArith.TotalTwoAgrees |
