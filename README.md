# Advent of Code 2020 solutions, modelled in Dafny

This project models the puzzle-solving core of a Rust Advent of Code 2020
repository: days 1 to 9, 11, 12 and 14 to 19, one Dafny module per day named
after the puzzle (`ReportRepair` for day 1 through `MonsterMessages` for day
19), plus a module `Text` for the pieces of the Rust standard library that
the solutions lean on: `str::lines`, `split`, `split_whitespace` (on the Unicode White_Space characters), integer
`FromStr`, `iter().sum()`, and Rust's truncating `/` and `%`.

The centre of the project is day 19. There a grammar of numbered rules is
compiled into a *possibility tree*: a directed graph whose edges carry
letters. Rule 0 is expanded between a root node and an end node. A rule that
is a single quoted letter becomes one edge. Every other rule expands each of
its alternatives between the same two nodes, and an alternative (a chain of
rules) is threaded through fresh intermediate nodes. A message is then
walked through the graph letter by letter. It is valid when one of the nodes
it can reach has no outgoing edge. The model:

- states the expansion as functions over a graph value (`ExpandRule`,
  `ExpandOptions`, `ExpandChainRefs`);
- proves that the mutating `PossibilityTree` class and the recursive
  `ExpandChain` method compute exactly those functions;
- proves that `ValidateMessage` accepts exactly the messages that have a walk
  to a leaf;
- proves the main theorem `AcceptsIffDerives`: for an acyclic grammar
  without empty chains, the tree accepts a message iff rule 0 derives it.

Acyclicity is given by a ghost rank map. A rule's rank must exceed the rank
of every rule its chains mention.

The other days follow the same pattern. Where the Rust code mutates state in
a loop, the model is a method with loop invariants, proved equal to a
specification function. Examples are the visited-set interpreter of day 8,
the seat rounds of day 11, the ship of day 12, the memory writes of day 14,
the memory game of day 15, the column elimination of day 16 and the
evaluators of day 18. Properties the puzzle promises are lemmas about those
functions:

- round trips between parsing and printing;
- counts, bounds and uniqueness;
- first-match characterisations;
- the outcomes of the repository's own unit tests.

A Rust `panic!`, `expect` or `unwrap` failure is modelled as an `Err`
(or `None`) result carrying the panic message. Integers are unbounded.
Parsed numbers respect their Rust type's range, and the seat-ID arithmetic
of day 5 and the 36-bit masks of day 14 are modelled at their width. Most
sums and products are not: the overflow panics the model leaves out are
listed under "Left out".

On three points of day 19 the code differs from what a reading of the
grammar alone would suggest, and the model follows the code:

- The code rejects a `Literal` option whenever the rule has more than one
  option, wherever it stands ("More than 1 literal in rule"). It rejects a
  missing rule as well ("Rule not found"). So mixing literal and chain forms
  in one rule is an error only through the literal-among-several case.
- A chain with no members (`8: `, or the empty side of `1 |`) adds no edges, so the tree
  does not accept the empty word that such a chain derives. The tree
  language equals the grammar language only for grammars without empty
  chains, and `AcceptsIffDerives` requires that.
- The literal body `"ab"` keeps only its first letter, `a`
  (`QuotedKeepsFirstLetter`).

## Model

| member | source | states |
|---|---|---|
| `ReportRepair.Combinations` | src/day_01.rs:79-83 | every listed index combination is strictly increasing, within the report, of size k (itertools `combinations` over positions) |
| `ReportRepair.CombinationsComplete` | src/day_01.rs:79-83 | every strictly increasing k-subset of positions is listed, so no combination is skipped |
| `ReportRepair.CombinationsSorted` | src/day_01.rs:79-83 | combinations come in lexicographic order of positions, the order itertools yields them |
| `ReportRepair.Search` | src/day_01.rs:82-85 | the search fails with "No sum found" iff no candidate sums to the target; otherwise it returns the first candidate whose entries sum to the target |
| `ReportRepair.FindSumFails` | src/day_01.rs:79-86 | `find_sum` fails iff no k entries at distinct positions sum to the target |
| `ReportRepair.FindSumFirst` | src/day_01.rs:79-86 | a found result has k entries from distinct positions, sums to the target, and no lexicographically earlier combination does |
| `ReportRepair.FindSumIs` | src/day_01.rs:79-86 | if c is the lexicographically first combination summing to the target, `find_sum` returns exactly its entries, `Pick(report, c)`: the report values at c's positions, in order |
| `ReportRepair.LexTotal` | src/day_01.rs:82 | two different combinations of equal size are ordered one way or the other, which makes the first match unique |
| `ReportRepair.FindSumWithTwo` | src/day_01.rs:107-114 | on the sorted example, pairs summing to 2020 give [299, 1721] |
| `ReportRepair.FindSumWithThree` | src/day_01.rs:116-123 | on the sorted example, triples summing to 2020 give [366, 675, 979] |
| `ReportRepair.ParseToInts` | src/day_01.rs:88-94 | every kept number fits in u32 |
| `ReportRepair.ParseToIntsRoundTrip` | src/day_01.rs:88-94 | printing u32 numbers one per line and parsing the text gives back the same list |
| `ReportRepair.ParseToIntsKeepsNumbers` | src/day_01.rs:88-94 | the result is the filter_map of the lines: the values of exactly the lines that parse as u32, in order; every other line is dropped |
| `PasswordPhilosophy.Occurrences` | src/day_02.rs:84-88 | the count of a letter is its multiplicity in the password |
| `PasswordPhilosophy.FindValidPasswords` | src/day_02.rs:80-92 | keeps exactly the passwords whose letter count lies in [min, max]; every kept one comes from the input |
| `PasswordPhilosophy.PositionHitsCount` | src/day_02.rs:98-104 | the enumerate-and-filter count from index i on is 1 for position min if it holds the letter, plus 1 for position max if it is a different position holding the letter; positions past the end count nothing |
| `PasswordPhilosophy.TobogganValidIff` | src/day_02.rs:94-108 | the position policy holds iff exactly one of positions min and max holds the letter (iff that position holds it, when min = max) |
| `PasswordPhilosophy.FindValidTobogganPasswords` | src/day_02.rs:94-108 | keeps exactly the passwords that satisfy the position policy |
| `PasswordPhilosophy.FindValidAppend` | src/day_02.rs:80-108 | both filters distribute over concatenation, so they preserve the input order |
| `PasswordPhilosophy.FirstMatchAt` | src/day_02.rs:130-135 | the unanchored pattern `([0-9]+)-([0-9]+) (.): (.*)` is matched at the leftmost position where it can match |
| `PasswordPhilosophy.MatchTextIsMatch` | src/day_02.rs:130-135 | the text "min-max c: password" printed from captures matches the pattern at position 0 with exactly those captures |
| `PasswordPhilosophy.ConvertToPassword` | src/day_02.rs:130-154 | a converted policy has bounds that fit in usize |
| `PasswordPhilosophy.ConvertShowPassword` | src/day_02.rs:130-154 | a line "min-max c: password" converts back to exactly that policy and password |
| `PasswordPhilosophy.ConvertLinesKeepsPasswords` | src/day_02.rs:123-128 | the passwords are those of exactly the lines that convert, in order; every line that does not convert is dropped |
| `PasswordPhilosophy.ParseShowPasswords` | src/day_02.rs:123-128 | parsing the printed lines of a list of passwords gives back the list |
| `PasswordPhilosophy.ParseExample` | src/day_02.rs:160-191 | the three example lines parse into the three passwords of the unit test |
| `PasswordPhilosophy.CountExamples` | src/day_02.rs:193-242 | abcde and ccccccccc satisfy the count policy and cdefg does not |
| `PasswordPhilosophy.FilterExample` | src/day_02.rs:193-242 | the count filter keeps the first and third example passwords |
| `PasswordPhilosophy.TobogganExample` | src/day_02.rs:243-282 | the position filter keeps only the first example password |
| `TobogganTrajectory.ParseMapRows` | src/day_03.rs:158-179 | round trip for `ParseMap`: joining non-empty rows with newlines and parsing gives height the row count, width the first row's length, and as trees (`TreeSquares`) exactly the (row, column) squares whose row has '#' at that column |
| `TobogganTrajectory.ParseMapEmpty` | src/day_03.rs:158-160 | `ParseMap` of text without lines fails with the panic of unwrapping the missing first line |
| `TobogganTrajectory.StepsBound` | src/day_03.rs:123 | step k is taken iff k * down is below the height, so the loop takes a fixed number of steps |
| `TobogganTrajectory.ColumnStep` | src/day_03.rs:125-126 | adding `right` and then taking Rust's remainder by the width gives the next step's column |
| `TobogganTrajectory.ColumnInRange` | src/day_03.rs:152-154 | for a non-negative slope the wrapped column stays in [0, width) |
| `TobogganTrajectory.HitsUpTo` | src/day_03.rs:122-131 | no more trees are hit than steps are taken |
| `TobogganTrajectory.TreesHit` | src/day_03.rs:117-132 | fails iff a non-empty map has width 0 (remainder by zero); otherwise the count is at most the number of steps |
| `TobogganTrajectory.Traverse` | src/day_03.rs:117-132 | the while loop returns the tree count defined by `TreesHit` |
| `TobogganTrajectory.StartNotCounted` | src/day_03.rs:120-128 | a tree at the start square does not change the count |
| `TobogganTrajectory.ParseMapExample` | src/day_03.rs:185-214 | the four-line test map parses to width 11, height 4 and the twelve trees of the unit test |
| `TobogganTrajectory.TraverseExample` | src/day_03.rs:216-247 | the eleven rows of the unit test, joined by newlines, parse with `parse_map`, and slope right 3, down 1 on that map hits 7 trees |
| `PassportProcessing.FromCode` | src/day_04.rs:185-205 | a code that is not one of the eight fails only with the unknown-code error (the panic) |
| `PassportProcessing.CodeRoundTrip` | src/day_04.rs:185-205 | each of the eight codes names exactly one field, and back |
| `PassportProcessing.EntryOf` | src/day_04.rs:314-320 | an entry converts iff its first three characters are a known code and the fourth is ':'; the value is the rest |
| `PassportProcessing.PassportOfOk` | src/day_04.rs:310-324 | a block converts iff every entry converts |
| `PassportProcessing.PassportOfFields` | src/day_04.rs:310-324 | the passport has exactly the fields named by its entries |
| `PassportProcessing.PassportOfValue` | src/day_04.rs:310-324 | a field's value is the one written by its last entry |
| `PassportProcessing.ConvertToPassport` | src/day_04.rs:310-324 | the loop over entries builds the passport defined by `BlockPassport` |
| `PassportProcessing.ParseBlocks` | src/day_04.rs:303-308 | parsing succeeds iff every block converts, giving one passport per block in order |
| `PassportProcessing.ValidYearOfNumber` | src/day_04.rs:230-233 | round trip for `ValidYear`: a number written in decimal is valid iff it lies in [min, max] when it fits in u16, and panics with "Year was not a number" when it does not |
| `PassportProcessing.ValidYearNonDigit` | src/day_04.rs:230-233 | a year holding a non-digit (other than one leading '+') panics with "Year was not a number", whatever the bounds |
| `PassportProcessing.ValidHeight` | src/day_04.rs:250-273 | valid iff digits then "cm" with value in [150, 193], or digits then "in" with value in [59, 76] |
| `PassportProcessing.ClassRunToEnd` | src/day_04.rs:275-301 | the anchored scan the three regexes perform: true iff exactly k characters remain from position i and all of them lie in the class |
| `PassportProcessing.ValidHairColor` | src/day_04.rs:275-281 | the scan for `^#[0-9a-f]{6}$` accepts exactly the strings of length 7 that start with '#' and continue with lower-case hex digits |
| `PassportProcessing.ValidEyeColor` | src/day_04.rs:283-293 | membership in the set of colour codes holds iff the string is one of the seven literals amb, blu, brn, gry, grn, hzl, oth; a valid colour has three characters |
| `PassportProcessing.ValidPassportId` | src/day_04.rs:295-301 | the scan for `^[0-9]{9}$` accepts exactly the strings of nine digits |
| `PassportProcessing.PassportIdIsPaddedNumber` | src/day_04.rs:295-301 | round trip: a passport ID is valid iff it is some number below 10^9 written with leading zeros to nine digits |
| `PassportProcessing.Validate` | src/day_04.rs:207-221 | only the three year validators can fail, and only on a value that is not a u16 |
| `PassportProcessing.CheckPresence` | src/day_04.rs:223-228 | without data validation the check holds iff every listed field is present |
| `PassportProcessing.PresenceValidity` | src/day_04.rs:207-228 | without data validation a passport is valid iff byr, iyr, eyr, hgt, hcl, ecl and pid are present |
| `PassportProcessing.CheckData` | src/day_04.rs:223-228 | with data validation the check holds iff every listed field is present and passes its validator |
| `PassportProcessing.DataValidity` | src/day_04.rs:207-228 | a passport is data-valid iff every required field is present and valid, and data-valid implies presence-valid |
| `PassportProcessing.ValidPassportError` | src/day_04.rs:223-248 | validation fails only with data validation on, when a present year field is not a number |
| `PassportProcessing.CountryIdIgnored` | src/day_04.rs:207-221 | adding, changing or removing cid never changes validity |
| `PassportProcessing.YearExamples` | src/day_04.rs:447-456 | byr 2002 passes and 2003 fails |
| `PassportProcessing.HeightExamples` | src/day_04.rs:457-476 | 60in and 190cm pass; 190in and 190 fail |
| `PassportProcessing.ColorAndIdExamples` | src/day_04.rs:477-510 | the unit test's hair colours, eye colours and passport IDs pass or fail as asserted |
| `PassportProcessing.ParseShownPassports` | src/day_04.rs:303-324 | blocks of entries printed with spaces, newlines and blank lines parse back to one passport per block, holding each block's entries |
| `PassportProcessing.ParseExample` | src/day_04.rs:329-374 | the three blocks of the unit test, written as entries separated by spaces, lines by newlines and blocks by blank lines, parse into its three expected passports |
| `PassportProcessing.PresenceExamples` | src/day_04.rs:376-432 | the first and third example passports are presence-valid and the second is not |
| `PassportProcessing.DataExampleValid` | src/day_04.rs:405-418 | the unit test's passport is data-valid |
| `PassportProcessing.DataExampleInvalid` | src/day_04.rs:433-446 | the unit test's passport is not data-valid |
| `BinaryBoarding.Bit` | src/day_05.rs:101-107 | F and L are 0, B and R are 1, and no other letter has a bit |
| `BinaryBoarding.SeatId` | src/day_05.rs:99-110 | the ID exists iff every letter is F, B, L or R; otherwise it fails with "Unknown character in boarding pass"; it fits in u16 |
| `BinaryBoarding.SeatIdBinary` | src/day_05.rs:99-110 | a pass of at most 16 letters has the ID that is its binary value (most significant letter first), below 2 to its length |
| `BinaryBoarding.LettersValue` | src/day_05.rs:99-110 | writing x as n binary letters and reading them back gives x |
| `BinaryBoarding.SeatIdOfPass` | src/day_05.rs:99-110 | the pass for row r (7 letters) and column c (3 letters) has ID r * 8 + c |
| `BinaryBoarding.SeatIdExample1` | src/day_05.rs:116-123 | BFFFBBFRRR has ID 567 |
| `BinaryBoarding.SeatIdExample2` | src/day_05.rs:125-132 | FFFBBBFRRR has ID 119 |
| `BinaryBoarding.SeatIdExample3` | src/day_05.rs:134-141 | BBFFBBFRLL has ID 820 |
| `BinaryBoarding.FirstGap` | src/day_05.rs:91-97 | finds the first adjacent pair that differs by 2, or none if there is none |
| `BinaryBoarding.FindGap` | src/day_05.rs:91-97 | returns n1 + 1 for the first adjacent pair with n2 = n1 + 2, and None iff there is no such pair |
| `BinaryBoarding.GapIsMissingSeat` | src/day_05.rs:91-97 | in a strictly increasing list the returned gap is missing while both of its neighbours are present |
| `BinaryBoarding.FindGapExample` | src/day_05.rs:143-149 | [5, 6, 8, 9] gives 7 |
| `CustomCustoms.Answers` | src/day_06.rs:90 | a line's answer set holds exactly its characters in a..z |
| `CustomCustoms.UnionFold` | src/day_06.rs:73-77 | the fold holds exactly the letters of the accumulator or of some later set |
| `CustomCustoms.AnyoneAnswered` | src/day_06.rs:70-79 | a group's union holds exactly the letters somebody answered; it contains every member's set, and an empty group gives the empty set |
| `CustomCustoms.AnyoneAnsweredBound` | src/day_06.rs:70-79 | a loaded group's union holds only a..z letters, so at most 26 |
| `CustomCustoms.AnyoneSumBound` | src/day_06.rs:70-79 | the printed sum is at most 26 per group |
| `CustomCustoms.LoadedSumBound` | src/day_06.rs:65-94 | the sum over a loaded input is at most 26 times its number of groups |
| `CustomCustoms.LoadShownGroups` | src/day_06.rs:84-94 | round trip for `LoadGroupsAnswers` and `LineAnswers`: printing groups of lines (blank lines between groups) and loading them gives one group per printed group and one answer set per line, each that line's `Answers` |
| `CustomCustoms.LoadExample` | src/day_06.rs:100-135 | the example text loads into the five groups of the unit test |
| `CustomCustoms.UnionExamples` | src/day_06.rs:100-135 | the five example groups have unions abc, abc, abc, a and b |
| `CustomCustoms.SumExample` | src/day_06.rs:44-57 | the union sizes of the example sum to 11 |
| `HandyHaversacks.UpdateLinks` | src/day_07.rs:129-130 | adding an edge sets that target's weight, keeps every other target's weight, and adds the target once |
| `HandyHaversacks.AddEdge` | src/day_07.rs:129-130 | adding an edge to the graph map sets that pair's weight, overwriting an earlier one, and changes no other pair |
| `HandyHaversacks.FromEdgesWellFormed` | src/day_07.rs:129-130 | the graph built from an edge list lists every target of a bag once |
| `HandyHaversacks.FromEdgesHas` | src/day_07.rs:129-130 | a pair is connected iff some edge of the list joins it |
| `HandyHaversacks.FromEdgesWeight` | src/day_07.rs:129-130 | a connected pair carries the weight of the last edge that joins it |
| `HandyHaversacks.CountContaining` | src/day_07.rs:115-123 | a bag without rule contains nothing; otherwise its count is at least the sum of its direct weights |
| `HandyHaversacks.SumLinks` | src/day_07.rs:117-122 | the sum over contained colours of w * (1 + count) is at least the total weight |
| `HandyHaversacks.CountRankIndependent` | src/day_07.rs:115-123 | the count does not depend on which acyclicity witness is used |
| `HandyHaversacks.CountIsContents` | src/day_07.rs:115-123 | the count equals the number of individual bags inside, counted as a multiset with multiplicities |
| `HandyHaversacks.SumLinksIsContents` | src/day_07.rs:117-122 | the weighted sum over a bag's links equals the number of bags the links contain, counted with multiplicity |
| `HandyHaversacks.ConvertToEdgesMembers` | src/day_07.rs:133-156 | `ConvertToEdges` of a line with a first bag succeeds, and an edge is in its result iff it leaves that bag and some later clause names its target with an amount that reads as its u32 weight |
| `HandyHaversacks.ClauseEdgesFrom` | src/day_07.rs:145-154 | every edge of a line leaves its container and has a u32 weight |
| `HandyHaversacks.ClauseEdgesSource` | src/day_07.rs:145-154 | every edge comes from a clause with a numeric amount |
| `HandyHaversacks.ClauseEdgesComplete` | src/day_07.rs:145-154 | every clause whose amount parses as a u32 gives the edge from the container to its colour with that weight |
| `HandyHaversacks.ParseBagRules` | src/day_07.rs:125-131 | parsing fails iff some line has no first bag |
| `HandyHaversacks.AllEdges` | src/day_07.rs:126-129 | collecting the edges of all lines fails iff some line has no first bag |
| `HandyHaversacks.SimpleExample` | src/day_07.rs:192-214 | the simple graph is acyclic and shiny gold contains 32 bags |
| `HandyHaversacks.DeepExample` | src/day_07.rs:215-236 | the doubling chain is acyclic and shiny gold contains 126 bags |
| `HandyHaversacks.ExampleLines` | src/day_07.rs:166-190 | the four lines of the unit test give its expected edges, and "no other bags" gives none |
| `HandyHaversacks.ParseExample` | src/day_07.rs:166-190 | the rules of the unit test give its five expected edges, in order |
| `HandheldHalting.VisitedCard` | src/day_08.rs:172-181 | after n running steps exactly n distinct in-program indices are visited |
| `HandheldHalting.RunsBound` | src/day_08.rs:172-181 | the loop runs no more steps than the program has instructions |
| `HandheldHalting.StopUnique` | src/day_08.rs:174-205 | the step at which the loop stops is unique, so the outcome is a function of the program |
| `HandheldHalting.VerdictSpec` | src/day_08.rs:175-205 | Finished iff the index equals the length; InfiniteLoop iff an in-program index is about to run again; InstructionFailure iff the index is negative or past the end |
| `HandheldHalting.TraceStep` | src/day_08.rs:183-202 | nop and acc move to the next index, jmp adds its argument, and only acc changes the accumulator, by its argument |
| `HandheldHalting.AccumulatorSum` | src/day_08.rs:190-196 | the accumulator is the sum of the acc arguments executed |
| `HandheldHalting.RunProgram` | src/day_08.rs:168-208 | the loop with its visited set stops after at most len steps and returns the verdict and accumulator of the trace |
| `HandheldHalting.FlipSpec` | src/day_08.rs:138-155 | the repair skips acc, flips exactly one nop/jmp, keeps its argument and every other instruction, and flipping twice restores the program |
| `HandheldHalting.RepairProgram` | src/day_08.rs:137-165 | lists, in order, every index whose flip makes the program finish, with the final accumulator |
| `HandheldHalting.DecodeTokens` | src/day_08.rs:230-250 | each pair of whitespace tokens decodes to one instruction; a failure is always the parse error |
| `HandheldHalting.DecodeShowTokens` | src/day_08.rs:230-250 | decoding the printed tokens of a program gives back the program |
| `HandheldHalting.LoadShowProgram` | src/day_08.rs:230-250 | loading the printed text of a program gives back the program |
| `HandheldHalting.SignedArguments` | src/day_08.rs:256-309 | +4, -99 and +0 parse as signed arguments; 4x and unknown operations fail |
| `HandheldHalting.ExampleLoop` | src/day_08.rs:311-353 | the example stops after 7 steps with (InfiniteLoop, 5) |
| `HandheldHalting.ExampleRepairRun` | src/day_08.rs:137-165 | flipping the jmp -4 at index 7 lets the example finish with accumulator 8 |
| `HandheldHalting.ExampleOnlyRepair` | src/day_08.rs:137-165 | index 7 is the only flip that repairs the example |
| `HandheldHalting.ExampleRepairs` | src/day_08.rs:137-165 | the repair loop over the example reports exactly (7, 8) |
| `EncodingError.AnyWithSpec` | src/day_09.rs:92-95 | the inner search finds a later entry completing the sum iff one exists |
| `EncodingError.HasPairSumSpec` | src/day_09.rs:90-95 | the window test holds iff two entries at different positions of the window sum to the value |
| `EncodingError.FirstInvalidSpec` | src/day_09.rs:87-99 | the search returns None iff every later value is a pair sum of its window, and otherwise the first value that is not |
| `EncodingError.FindInvalidNumber` | src/day_09.rs:87-99 | the loop returns the first value after the preamble that is not the sum of two entries among the preamble_size before it, and None iff there is none |
| `EncodingError.ParseXmasData` | src/day_09.rs:101-107 | every kept number fits in u64, and no more numbers than lines are kept |
| `EncodingError.ParseXmasDataRoundTrip` | src/day_09.rs:101-107 | printing u64 numbers one per line and parsing gives back the list |
| `EncodingError.FindInvalidExample` | src/day_09.rs:124-132 | with preamble 5 the example's first invalid number is 127 |
| `SeatingSystem.DirectNeighboursSpec` | src/day_11.rs:342-353 | there are 8 distinct direct neighbours, exactly the cells within 1 in both coordinates other than the cell itself |
| `SeatingSystem.BoundsUnique` | src/day_11.rs:310-323 | the bounds of a set of seats are unique |
| `SeatingSystem.GetBounds` | src/day_11.rs:310-323 | no seats gives no bounds; otherwise the result is the minimum and maximum row and column |
| `SeatingSystem.CountAtMostEight` | src/day_11.rs:359-376 | a seat has at most 8 occupied neighbours |
| `SeatingSystem.Round` | src/day_11.rs:395-414 | a round keeps exactly the same seat locations |
| `SeatingSystem.EmptySeatRule` | src/day_11.rs:400-403 | an empty seat becomes occupied iff no neighbouring seat is occupied |
| `SeatingSystem.OccupiedSeatRule` | src/day_11.rs:404-409 | an occupied seat becomes empty iff at least 4 neighbouring seats are occupied |
| `SeatingSystem.AllEmptyRound` | src/day_11.rs:395-414 | a layout of empty seats fills completely in one round |
| `SeatingSystem.CountNeighbours` | src/day_11.rs:362-374 | adding one occupied seat increments the count of each neighbouring seat and adds no other entry |
| `SeatingSystem.Seating.constructor` | src/day_11.rs:301-308 | a new seating holds the given seats and bounds |
| `SeatingSystem.Seating.NeighbourCounts` | src/day_11.rs:359-376 | maps each seat with an occupied neighbour to its number of occupied neighbours, and nothing else |
| `SeatingSystem.Seating.NextRound` | src/day_11.rs:378-421 | replaces the seats by one round of the rules, keeps the bounds, and returns true iff the round changed something |
| `SeatingSystem.NewSeating` | src/day_11.rs:301-308 | an empty layout has no bounds; otherwise the seating holds the seats and their bounds |
| `SeatingSystem.LoadSeatsMembers` | src/day_11.rs:424-436 | exactly the 'L' cells become seats, each Empty, keyed by (row, column) |
| `SeatingSystem.GridSeatsMembers` | src/day_11.rs:424-436 | a location is a seat iff its cell in the grid is 'L', and every loaded seat is Empty |
| `SeatingSystem.SmallFullStable` | src/day_11.rs:404-409 | a fully occupied layout of at most four seats never changes |
| `SeatingSystem.LoadSmall` | src/day_11.rs:424-436 | the layout "L.L\nLL." loads to its four empty seats |
| `SeatingSystem.SmallRounds` | src/day_11.rs:395-420 | that layout fills in one round and is then stable |
| `SeatingSystem.SmallExample` | src/day_11.rs:378-421 | on that layout the first round reports a change and the second does not, leaving every seat occupied |
| `RainRisk.FromIndexOfIndex` | src/day_12.rs:126-132 | the numbering North, East, South, West of the directions is one to one |
| `RainRisk.ToDirection` | src/day_12.rs:154-162 | N, S, E and W are directions; L, R and F fail (the panic) |
| `RainRisk.TurnFacing` | src/day_12.rs:178-190 | a turn gives a new facing iff the action is L or R; any other action is the panic |
| `RainRisk.MoveLocationAxis` | src/day_12.rs:168-176 | North gives x - v, South x + v, East y + v, West y - v, the other coordinate unchanged |
| `RainRisk.MoveLocationBack` | src/day_12.rs:168-176 | moving by v and then by -v in the same direction restores the location |
| `RainRisk.MoveKeepsFacing` | src/day_12.rs:144-152 | N, S, E, W and F move in the named or the facing direction and keep the facing |
| `RainRisk.TurnKeepsLocation` | src/day_12.rs:144-152 | L and R change only the facing |
| `RainRisk.TurnRightLeft` | src/day_12.rs:178-190 | turning right by v and then left by v restores the facing |
| `RainRisk.TurnLeftRight` | src/day_12.rs:178-190 | turning left by v and then right by v restores the facing |
| `RainRisk.FullCircle` | src/day_12.rs:178-190 | turning right by 360 keeps the facing |
| `RainRisk.Ship.constructor` | src/day_12.rs:137-142 | a new ship faces East at (0, 0) |
| `RainRisk.Ship.MoveInDirection` | src/day_12.rs:164-166 | moves the location and keeps the facing |
| `RainRisk.Ship.Turn` | src/day_12.rs:178-190 | changes the facing as `TurnFacing` says and keeps the location |
| `RainRisk.Ship.Execute` | src/day_12.rs:144-152 | the new state is one step of the instruction from the old state |
| `RainRisk.Ship.ExecuteMultiple` | src/day_12.rs:192-196 | the new state is the instructions applied in order |
| `RainRisk.LetterAction` | src/day_12.rs:225-233 | exactly the letters N, S, E, W, L, R and F name actions, and each names its own |
| `RainRisk.ConvertToInstruction` | src/day_12.rs:220-241 | fails with "No match found on line" iff the pattern `[NSEWLRF][0-9]+` occurs nowhere in the line |
| `RainRisk.ParseLines` | src/day_12.rs:216-218 | parsing fails iff some line has no match |
| `RainRisk.ConvertShown` | src/day_12.rs:220-241 | a line "<letter><value>" with an i32 value converts back to that instruction |
| `RainRisk.ParseShownInstructions` | src/day_12.rs:216-241 | parsing the printed lines of instructions gives back the instructions |
| `RainRisk.RunExample` | src/day_12.rs:277-310 | F10 N3 F7 R90 F11 ends facing South at (8, 17) |
| `RainRisk.ParseExample` | src/day_12.rs:247-275 | the text of the unit test parses into its five expected instructions |
| `DockingData.ReversedLowFirst` | src/day_14.rs:244-253 | the bits pushed least significant first, reversed, are the bits most significant first |
| `DockingData.ToBitVec` | src/day_14.rs:244-253 | the loop returns the 36 bits of n, most significant first |
| `DockingData.ToU64Bound` | src/day_14.rs:255-259 | the value of k bits is below 2^k |
| `DockingData.BitsOfToU64` | src/day_14.rs:244-259 | converting bits to a number and back gives the same bits |
| `DockingData.BitVecRoundTrip` | src/day_14.rs:244-259 | for n below 2^36, `to_u64(to_bit_vec(n)) == n` |
| `DockingData.ApplyMaskBits` | src/day_14.rs:198-209 | each result bit is the mask bit where the mask is 0 or 1, and the value bit where it is X |
| `DockingData.AllFloatingKeeps` | src/day_14.rs:165 | the initial all-X mask keeps the low 36 bits of a value |
| `DockingData.ApplyMaskIdempotent` | src/day_14.rs:198-209 | applying a mask twice equals applying it once |
| `DockingData.ExpandMembers` | src/day_14.rs:227-242 | the expansion holds exactly the numbers below 2^n whose bits agree with every fixed bit of the pattern |
| `DockingData.ExpandCount` | src/day_14.rs:227-242 | a pattern with k floating bits expands to exactly 2^k addresses |
| `DockingData.DecodeMembers` | src/day_14.rs:211-225 | a decoded address has each bit forced to 1 where the mask is 1, kept where it is 0, and free where it is X |
| `DockingData.DecodeCount` | src/day_14.rs:211-242 | an address decodes to 2^k addresses for k X bits |
| `DockingData.RunProgram` | src/day_14.rs:164-178 | the loop computes the memory that `Run` defines |
| `DockingData.RunKeys` | src/day_14.rs:164-178 | an address is in memory iff some mem step wrote it |
| `DockingData.RunLastWrite` | src/day_14.rs:164-178 | an address holds the last value written to it, masked by the mask in force at that step |
| `DockingData.Store` | src/day_14.rs:189-191 | storing a value at a set of addresses adds exactly those keys |
| `DockingData.RunProgramV2` | src/day_14.rs:180-196 | the loop computes the memory that `RunV2` defines |
| `DockingData.RunV2Keys` | src/day_14.rs:180-196 | an address is in memory iff some mem step decodes to it |
| `DockingData.RunV2LastWrite` | src/day_14.rs:180-196 | an address holds the unmasked value of the last step that decodes to it |
| `DockingData.CreateMask` | src/day_14.rs:298-308 | succeeds iff every character is 1, 0 or X, giving one mask bit per character; otherwise fails |
| `DockingData.CreateMaskText` | src/day_14.rs:298-308 | printing a mask and reading it back gives the same mask |
| `DockingData.ParseStep` | src/day_14.rs:274-326 | a parsed mask has 36 bits, and a parsed mem step has address and value in u64 |
| `DockingData.ParseShowProgram` | src/day_14.rs:270-326 | parsing the printed lines of a program gives back the program |
| `DockingData.BitVecExample` | src/day_14.rs:538-561 | 101 gives the 36-bit vector of the unit test, and back |
| `DockingData.ExpandExample` | src/day_14.rs:563-611 | the unit test's pattern expands to {26, 27, 58, 59} |
| `DockingData.ApplyMaskExamples` | src/day_14.rs:383-434 | under the example mask 11 becomes 73, 101 stays 101 and 0 becomes 64 |
| `DockingData.RunExample` | src/day_14.rs:383-434 | the example program leaves {7: 101, 8: 64} |
| `DockingData.DecodeExampleFirst` | src/day_14.rs:436-536 | address 42 under the first version-2 mask decodes to {26, 27, 58, 59} |
| `DockingData.DecodeExampleSecond` | src/day_14.rs:436-536 | address 26 under the second version-2 mask decodes to 16-19 and 24-27 |
| `DockingData.RunV2Example` | src/day_14.rs:436-536 | the version-2 example leaves 16-19 and 24-27 holding 1, and 58, 59 holding 100 |
| `DockingData.ParseExample` | src/day_14.rs:328-381 | the text of the unit test parses into its expected program |
| `RambunctiousRecitation.LastTurnSpec` | src/day_15.rs:74-88 | the last turn of a number is absent iff it was never spoken, and otherwise is the latest turn on which it was spoken |
| `RambunctiousRecitation.Game` | src/day_15.rs:72-91 | the first n turns are n numbers |
| `RambunctiousRecitation.MemoryOfSpec` | src/day_15.rs:78-88 | the memory maps every spoken number, and only those, to the latest turn it was spoken |
| `RambunctiousRecitation.GameStep` | src/day_15.rs:77-88 | each turn appends the next number to the turns before |
| `RambunctiousRecitation.GamePrefix` | src/day_15.rs:77-88 | a shorter game is a prefix of a longer one |
| `RambunctiousRecitation.GameStart` | src/day_15.rs:79-80 | the first turns repeat the start sequence |
| `RambunctiousRecitation.SpokenStart` | src/day_15.rs:79-80 | for 1 <= goal <= the start's length the result is start[goal - 1] |
| `RambunctiousRecitation.SpokenAfter` | src/day_15.rs:81-84 | after a number spoken for the first time comes 0; otherwise the current turn minus the turn it was last spoken |
| `RambunctiousRecitation.PlayMemoryGame` | src/day_15.rs:72-91 | an empty start fails with "Start sequence is empty"; otherwise the loop returns the number spoken on the goal turn |
| `RambunctiousRecitation.ExampleTurns` | src/day_15.rs:97-110 | start 0, 3, 6 yields 0, 3, 6, 0, 3, 3, 1, 0, 4, 0 |
| `TicketTranslation.ValidSpec` | src/day_16.rs:292-296 | a rule accepts a value iff one of its inclusive ranges contains it |
| `TicketTranslation.AnyContainsSpec` | src/day_16.rs:305-308 | the range scan holds iff some range contains the value |
| `TicketTranslation.ValidForAnySpec` | src/day_16.rs:139 | a value is valid for some rule iff some rule accepts it |
| `TicketTranslation.ErrorValuesSpec` | src/day_16.rs:134-141 | the summed values are exactly the nearby values that no rule accepts |
| `TicketTranslation.ErrorRateAppend` | src/day_16.rs:134-141 | the error rate of two batches of tickets is the sum of their rates |
| `TicketTranslation.FilterOutInvalidTickets` | src/day_16.rs:196-206 | keeps exactly the tickets whose every value some rule accepts |
| `TicketTranslation.NothingDropped` | src/day_16.rs:134-206 | if every ticket is valid, none is dropped and the error rate is 0 |
| `TicketTranslation.ColumnValid` | src/day_16.rs:155-159 | a column check fails only by a ticket too short for the column |
| `TicketTranslation.ColumnValidSpec` | src/day_16.rs:155-159 | a column fits a rule iff every kept ticket has the column and the rule accepts its value; the check fails iff some ticket is too short |
| `TicketTranslation.ColumnsFor` | src/day_16.rs:152-160 | a rule's candidate set fails only by a ticket too short |
| `TicketTranslation.ColumnsForSpec` | src/day_16.rs:152-160 | a rule's candidate set holds exactly the columns below the width that fit the rule on every kept ticket |
| `TicketTranslation.Candidates` | src/day_16.rs:146-162 | building the candidate map fails only by a ticket too short (the unwrap) |
| `TicketTranslation.CandidatesErr` | src/day_16.rs:146-162 | the candidate map fails iff some rule meets a ticket too short for some column |
| `TicketTranslation.CandidatesKeys` | src/day_16.rs:146-162 | the candidate map has exactly the rule names as keys |
| `TicketTranslation.CandidatesColumns` | src/day_16.rs:146-162 | a name's candidates are those of the last rule with that name, as a HashMap collect keeps |
| `TicketTranslation.EliminationSound` | src/day_16.rs:169-191 | every locked pair was a candidate, and no rule or column is locked twice |
| `TicketTranslation.PairsMapSpec` | src/day_16.rs:174 | the final mapping has exactly the locked names, each with its locked column |
| `TicketTranslation.RemainingStep` | src/day_16.rs:181-186 | locking a pair removes the rule and removes its column from every other candidate set |
| `TicketTranslation.EliminationStep` | src/day_16.rs:169-191 | locking a singleton keeps the elimination trace valid |
| `TicketTranslation.MapRulesToTickets` | src/day_16.rs:143-194 | fails iff a ticket is too short for a column; otherwise the loop stops when no candidate set is a singleton, and every mapped column fits its rule on every kept ticket, no two rules sharing a column |
| `TicketTranslation.FindSingleton` | src/day_16.rs:170-178 | finds a rule with exactly one candidate column, in whatever order, iff there is one |
| `TicketTranslation.LockStep` | src/day_16.rs:172-186 | one loop iteration records the pair, removes the rule and column, and extends the mapping |
| `TicketTranslation.LockedColumnsFit` | src/day_16.rs:147-176 | every rule to column pair of the mapping fits that rule on every kept ticket |
| `TicketTranslation.LockedInjective` | src/day_16.rs:181-186 | no two rules are mapped to the same column |
| `TicketTranslation.ConvertToTicket` | src/day_16.rs:272-277 | keeps at most one u32 per comma-separated part |
| `TicketTranslation.ConvertShownTicket` | src/day_16.rs:272-277 | a comma-joined list of u32 numbers converts back to the list |
| `TicketTranslation.ScanningErrorRateExample` | src/day_16.rs:363-394 | the example notes have error rate 71 |
| `TicketTranslation.FilterOutExample` | src/day_16.rs:442-462 | the unit test's notes keep [5] and [2] |
| `TicketTranslation.ConvertTicketExample` | src/day_16.rs:316-361 | "7,1,14" converts to [7, 1, 14] |
| `TicketTranslation.MatchCandidatesExample` | src/day_16.rs:396-440 | the second example gives candidates class {1, 2}, row {0, 1, 2}, seat {2} |
| `TicketTranslation.MatchEliminationExample` | src/day_16.rs:396-440 | every elimination run until no singleton is left locks seat to 2, then class to 1, then row to 0 |
| `TicketTranslation.MatchMappingExample` | src/day_16.rs:396-440 | so the mapping is row 0, class 1, seat 2 |
| `ConwayCubes.Around` | src/day_17.rs:500-511 | the cube around a point has 3^d points |
| `ConwayCubes.AroundMembers` | src/day_17.rs:500-538 | the cube holds exactly the points within 1 of the point in every coordinate |
| `ConwayCubes.AroundDistinct` | src/day_17.rs:500-538 | the cube lists no point twice |
| `ConwayCubes.WithoutMembers` | src/day_17.rs:509 | filtering out the point keeps exactly the other points |
| `ConwayCubes.NeighboursSpec` | src/day_17.rs:500-538 | a point has 3^d - 1 distinct neighbours, exactly the other points within 1 in every coordinate |
| `ConwayCubes.NeighbourCounts3D4D` | src/day_17.rs:499-538 | there are 26 neighbours in 3D and 80 in 4D |
| `ConwayCubes.ReachedCount` | src/day_17.rs:465-473 | a point gets a count iff some active cube neighbours it |
| `ConwayCubes.CountInsert` | src/day_17.rs:467-471 | folding one more cube adds one to the count of each of its neighbours |
| `ConwayCubes.NeighbourCounts` | src/day_17.rs:465-473 | maps exactly the points some active cube neighbours to the number of active cubes of which they are a neighbour |
| `ConwayCubes.NextMembers` | src/day_17.rs:475-489 | a point is active next iff its count is 3, or its count is 2 and it is active now |
| `ConwayCubes.NextNeighbours` | src/day_17.rs:475-489 | every point active next neighbours a point active now |
| `ConwayCubes.NextEmpty` | src/day_17.rs:475-489 | nothing stays nothing |
| `ConwayCubes.Iterate` | src/day_17.rs:475-489 | the loop computes one cycle, exactly the points `NextMembers` names |
| `ConwayCubes.New` | src/day_17.rs:513-515 | a new point has as many coordinates as its space has dimensions |
| `ConwayCubes.RowMembers` | src/day_17.rs:550-553 | a row gives exactly its '#' columns |
| `ConwayCubes.GridMembers` | src/day_17.rs:546-558 | the grid gives exactly its '#' cells, offset by the first row |
| `ConwayCubes.ParseMembers` | src/day_17.rs:546-558 | parsing places each '#' at row x, column y, and 0 in every further coordinate |
| `ConwayCubes.NeighboursExample` | src/day_17.rs:581-614 | the neighbours of the 3D origin are the 26 points the unit test expects, in its order |
| `ConwayCubes.ParseExample` | src/day_17.rs:564-579 | the unit test's grid parses to its five cubes |
| `ConwayCubes.ExampleCell` | src/day_17.rs:616-657 | on the example, a point is active after one cycle iff it is one of the eleven points the unit test expects |
| `ConwayCubes.IterateExample` | src/day_17.rs:616-657 | one 3D cycle on the example gives the eleven-cube set the unit test expects |
| `OperationOrder.Eval` | src/day_18.rs:105-134 | each call leaves a strictly shorter rest of the input unless the input is already empty, which makes the recursion over groups well founded |
| `OperationOrder.SubEvaluate` | src/day_18.rs:105-134 | the loop over the character iterator, recursing into groups, returns the value and the rest that `Eval` defines |
| `OperationOrder.AdvEval` | src/day_18.rs:141-176 | each call of the advanced evaluator leaves a strictly shorter rest unless the input is already empty |
| `OperationOrder.AdvancedSubEvaluate` | src/day_18.rs:141-176 | the stack loop returns the value and the rest that `AdvEval` defines |
| `OperationOrder.EvaluateLine` | src/day_18.rs:100-103 | evaluating a line equals `Evaluate`: spaces dropped, then the loop |
| `OperationOrder.AdvancedEvaluateLine` | src/day_18.rs:136-139 | advanced evaluation of a line equals `AdvancedEvaluate` |
| `OperationOrder.EvalExpr` | src/day_18.rs:105-134 | reading a well-formed expression leaves its left-to-right value as the running total |
| `OperationOrder.EvalTerm` | src/day_18.rs:110-131 | reading a digit or a group combines its value with the pending total and operator |
| `OperationOrder.AdvEvalExpr` | src/day_18.rs:141-176 | reading a well-formed expression leaves its sums on the stack |
| `OperationOrder.AdvEvalTerm` | src/day_18.rs:145-172 | reading a digit or a group pushes its value, or adds it to the top after '+' |
| `OperationOrder.NoSpacesShow` | src/day_18.rs:101 | dropping spaces from a printed expression gives its compact form |
| `OperationOrder.EvaluateShow` | src/day_18.rs:100-134 | `evaluate` of a printed expression is its value with + and * of equal precedence, left to right |
| `OperationOrder.AdvancedEvaluateShow` | src/day_18.rs:136-176 | `advanced_evaluate` of a printed expression is the product of its sums, + binding tighter than * |
| `OperationOrder.EvaluateExample1` | src/day_18.rs:180-186 | "1 + 2 * 3 + 4 * 5 + 6" gives 71, and 231 advanced |
| `OperationOrder.EvaluateExample2` | src/day_18.rs:187-193 | "1 + (2 * 3) + (4 * (5 + 6))" gives 51, and 51 advanced |
| `OperationOrder.EvaluateExample3` | src/day_18.rs:194-200 | "2 * 3 + (4 * 5)" gives 26, and 46 advanced |
| `OperationOrder.EvaluateExample4` | src/day_18.rs:201-207 | "5 + (8 * 3 + 9 + 3 * 4 * 3)" gives 437, and 1445 advanced |
| `OperationOrder.EvaluateExample5` | src/day_18.rs:208-214 | "5 * 9 * (7 * 3 * 3 + 9 * 3 + (8 + 6 * 4))" gives 12240, and 669060 advanced |
| `OperationOrder.EvaluateExample6` | src/day_18.rs:215-221 | "((2 + 4 * 9) * (6 + 9 * 8 + 6) + 6) + 2 + 4 * 2" gives 13632, and 23340 advanced |
| `OperationOrder.EmptyExamples` | src/day_18.rs:112-133 | "()" fails with the empty-parenthesis panic and "" with the empty-expression panic; the advanced evaluator gives 1 for both (the empty product) |
| `OperationOrder.LeadingPlusExample` | src/day_18.rs:130 | "+ 1" fails with the unexpected-situation panic, and in the advanced evaluator with the missing number before the addition |
| `OperationOrder.AdjacentNumbersExample` | src/day_18.rs:130 | "1 2" is an unexpected situation, while the advanced evaluator multiplies to 2 |
| `OperationOrder.NotADigitExample` | src/day_18.rs:115-121 | "1 + a" fails because 'a' is not a digit, in both evaluators |
| `MonsterMessages.ExpandRule` | src/day_19.rs:239-272 | expansion succeeds iff the rule and every rule it reaches exist and no literal stands among several options; it only appends nodes and edges, and every new edge leaves begin or a new node and enters end or a new node; without empty chains, begin and every new node get an outgoing edge |
| `MonsterMessages.ExpandOptions` | src/day_19.rs:250-268 | expanding the alternatives succeeds iff each resolves (a Literal among them fails); it only appends, with the same edge shape as `ExpandRule`, and without empty chains begin and the new nodes get outgoing edges |
| `MonsterMessages.ExpandChainRefs` | src/day_19.rs:253-264 | threading a chain from begin to end succeeds iff every rule in it resolves; it only appends, with the same edge shape, and without empty chains begin and the new nodes get outgoing edges |
| `MonsterMessages.Build` | src/day_19.rs:228-237 | building succeeds iff rule 0 resolves, and the tree then holds at least the root 0 and the end node 1 |
| `MonsterMessages.ExpandRuleLanguage` | src/day_19.rs:239-272 | after expanding a rule between b and e, the new edges spell a walk from b to e exactly for the words the rule derives |
| `MonsterMessages.ExpandOptionsLanguage` | src/day_19.rs:250-268 | after expanding all alternatives between b and e, the new edges spell a walk from b to e exactly for the words some alternative derives |
| `MonsterMessages.ExpandChainRefsLanguage` | src/day_19.rs:253-264 | after threading a chain from b to e, the new edges spell a walk from b to e exactly for the concatenations of words its rules derive |
| `MonsterMessages.BuildLeaves` | src/day_19.rs:228-237 | the end node never gets an outgoing edge, and without empty chains it is the only node without one |
| `MonsterMessages.AcceptsIffDerives` | src/day_19.rs:22-36 | the tree accepts a message (a walk from the root to a leaf spells it) iff rule 0 derives it |
| `MonsterMessages.PossibilityTree.constructor` | src/day_19.rs:229 | a new tree has no nodes and no edges |
| `MonsterMessages.PossibilityTree.AddNode` | src/day_19.rs:256-258 | adds one node and returns its index |
| `MonsterMessages.PossibilityTree.AddEdge` | src/day_19.rs:247 | appends one labelled edge |
| `MonsterMessages.ExpandChain` | src/day_19.rs:239-272 | the recursive method mutating the tree produces exactly the graph `ExpandRule` defines, and fails exactly when it does, with the same error |
| `MonsterMessages.BuildPossibilityTree` | src/day_19.rs:228-237 | returns root 0 and the tree `Build` defines, failing exactly when it does and with its error |
| `MonsterMessages.Advance` | src/day_19.rs:206-217 | the new heads are exactly the targets of edges labelled with the letter from the old heads |
| `MonsterMessages.Targets` | src/day_19.rs:207-216 | the targets of a node's edges with that letter |
| `MonsterMessages.HasDeadEnd` | src/day_19.rs:220-223 | holds iff some head has no outgoing edge |
| `MonsterMessages.ValidateMessage` | src/day_19.rs:200-224 | a message is valid iff some walk from the root spelling it ends in a node without outgoing edges |
| `MonsterMessages.CountMatching` | src/day_19.rs:182-198 | building fails iff rule 0 does not resolve, with the same panic message (missing rule, or a literal among alternatives) `Build` gives; otherwise, for rules without empty chains, the count is the number of messages rule 0 derives |
| `MonsterMessages.ConvertToRuleOptions` | src/day_19.rs:300-321 | a body starting with a quote gives the single Literal of the first letter left after trimming the quotes, and fails (the unwrap) iff nothing is left; any other body gives one Chain per '\|'-separated segment, in order, built from that segment |
| `MonsterMessages.ChainOfKeepsNames` | src/day_19.rs:310-319 | a segment's chain refers to the values of exactly its whitespace-separated words that parse as u16, in order; other words are dropped |
| `MonsterMessages.QuotedKeepsFirstLetter` | src/day_19.rs:302-306 | the quoted body `"ab"` converts to the single Literal `a` |
| `Text.ParseNatsFilterMapped` | src/day_19.rs:313-317 | parsing a list of words with `filter_map(Result::ok)` keeps the values of exactly the words that parse within the type's range, in order |
| `MonsterMessages.ParseRuleLine` | src/day_19.rs:285-295 | a parsed line has a u16 rule name and at least one option |
| `MonsterMessages.CollectRules` | src/day_19.rs:282-298 | collecting lines never loses a rule already collected |
| `MonsterMessages.OptionsRoundTrip` | src/day_19.rs:300-321 | printing options (a quoted letter, or chains joined by " \| ") and converting them back gives the same options |
| `MonsterMessages.RuleLineRoundTrip` | src/day_19.rs:282-298 | a printed rule line "n: options" parses back to the same rule |
| `MonsterMessages.ParseRenderRules` | src/day_19.rs:282-298 | parsing the printed lines of rules gives their map, later lines overriding earlier ones |
| `MonsterMessages.ExampleRanked` | src/day_19.rs:328-356 | the example grammar is acyclic |
| `MonsterMessages.ExpandLetterRule` | src/day_19.rs:246-249 | a rule made of exactly one literal adds exactly one edge from begin to end with that letter |
| `MonsterMessages.BuildExample` | src/day_19.rs:358-431 | the example grammar builds into a 14-node tree with the listed edges |
| `MonsterMessages.AcceptsRename` | src/day_19.rs:358-431 | renaming the nodes of a tree one to one does not change what it accepts |
| `MonsterMessages.ReachesStep` | src/day_19.rs:204-218 | the head set after one more letter is the one-letter move of the previous head set |
| `MonsterMessages.ValidateExamples` | src/day_19.rs:433-487 | the unit test's tree accepts ababbb and abbbab and rejects bababa, aaabbb and aaaabbb |
| `MonsterMessages.DerivesByIsomorphicTree` | src/day_19.rs:358-431 | a tree isomorphic to the built one accepts exactly the words rule 0 derives |
| `MonsterMessages.DerivesExamples` | src/day_19.rs:433-487 | rule 0 of the example derives ababbb and abbbab but not bababa, aaabbb or aaaabbb |
| `MonsterMessages.ParseExample` | src/day_19.rs:328-356 | the rules block of the unit test parses into its six expected rules |

## Left out

- src/main.rs, the command-line dispatcher, and every `run()` body: they read built-in inputs and print. The pieces of `run()` that compute are modelled: the day 6 union, the day 8 repair loop and the day 19 count (`MonsterMessages.CountMatching`).
- The `regex` crate. Each pattern is restated as a hand-written matcher: days 2, 4, 12, 14 and 16. Day 7's `convert_to_edges` takes pre-tokenised clauses (`Clause(amount, color)`), one per bag the pattern would find.
- petgraph. Day 7's graph is a map from a bag to its weighted links, kept in order of first insertion. Day 19's tree is a node count plus an edge list. Day 7's second answer (the `Bfs` count of ancestors in the reversed graph) is a library traversal and is not modelled.
- `str::lines` strips a trailing '\r' before '\n'. `Text.Lines` splits on '\n' only.
- Day 11's `print` and the Visible neighbour mode (`visible_neighbours` is unimplemented). The 10 by 10 layouts of the tests are not evaluated: the rules are proved in general (`EmptySeatRule`, `OccupiedSeatRule`, `Seating.NextRound`) and run on a four-seat layout (`SmallExample`).
- Day 12's answer, the sum of the coordinates printed by `run()`, is not modelled.
- RambunctiousRecitation.PlayMemoryGame: the games of the long tests, up to turn 2020, are not evaluated; only the first ten turns of 0, 3, 6 are (`ExampleTurns`).
- ConwayCubes.Iterate: six cycles of the 4D example, giving 848, are not evaluated; one 3D cycle is (`IterateExample`). The order of the 80 neighbours in 4D is not stated; their count, distinctness and membership are.
- Day 19 part two: rules 8 and 11 replaced by cyclic rules. The source does not handle it: `expand_chain` recurses without bound on them (the process aborts on stack overflow).
- MonsterMessages.ExpandRule: requires the acyclicity witness `Ranked` for the whole rule map. This is stronger than the source needs: the source recurses without bound (the process aborts on stack overflow) only on a cycle reachable from the rule it expands, and it handles a map such as {0: "a", 1: 1} whose cycle is unreachable from 0. Such maps are outside the model. The same holds for `ExpandOptions`, `ExpandChainRefs`, `Build`, `ExpandChain`, `BuildPossibilityTree` and `CountMatching`.
- MonsterMessages.AcceptsIffDerives: requires `NonEmpty` (no empty chain, every rule has an option). With an empty chain the source's tree does not accept the empty word the chain derives. `CountMatching` assumes the same for its count.
- MonsterMessages.ExpandChain: the source panics after partially mutating the tree. The model reports the failure and states nothing about the partial tree.
- DockingData.Store: its contract states only the new key set. The values the memory then holds are stated by `RunV2LastWrite`.
- HandyHaversacks.CountContaining: requires the whole graph to be acyclic (`Ranked`). This is stronger than the source needs: its recursion has no visited guard and recurses without bound (the process aborts on stack overflow) only on a cycle reachable from the start bag. A graph whose only cycles are unreachable from the start is outside the model.
- HandyHaversacks.CountContaining: the u32 products `weight * (1 + count)` and their u32 sum (src/day_07.rs:120-122) are unbounded; the source panics in debug builds once a count exceeds 4294967295.
- BinaryBoarding.FindGap: `n1 + 2` on u16 (src/day_05.rs:95) is unbounded. Rust panics in debug builds on a pair starting at 65534 or 65535; the model compares over nat.
- EncodingError.HasPairSumSpec: the u64 sum of two window entries (src/day_09.rs:93) is unbounded. Rust panics in debug builds when two entries sum past 2^64 - 1; the model compares the exact sum. `EncodingError.FindInvalidNumber` inherits this.
- OperationOrder.Combine: the panic "Unexpected situation: {:?}" is modelled with the message `UnexpectedSituation`, without the debug rendering of the (total, operator, number) tuple that follows the colon (src/day_18.rs:130).
- TobogganTrajectory.Traverse: requires `down > 0`. The source loops forever on a slope that does not go down.
- RainRisk.Ship.Turn: requires a turn action. The source panics otherwise, and `execute` never calls it with another action.
- TicketTranslation.MapRulesToTickets: HashMap iteration order decides which singleton is locked first. The model picks any singleton and states what holds for every choice. `parse_notes` and `convert_to_rule` are not part of this model.
- Fixed-width overflow panics are not modelled. Sums and products are unbounded integers in:
  - the u32 sums of days 1 and 16;
  - the u64 evaluations of day 18;
  - the i32 accumulator and jump arithmetic of day 8 (HandheldHalting.RunProgram);
  - the i32 coordinates of days 3 and 12;
  - the u32 numbers of day 15.

  Parsed numbers do respect their type's range.
