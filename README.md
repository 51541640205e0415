# Advent of Code 2025 solvers, modelled in Dafny

The Java repository solves the twelve puzzles of Advent of Code 2025. Each day
is a solver class whose `solveSilver` (part one) and `solveGold` (part two)
take the lines of the puzzle input and return a number. This project models
those solvers, and the small helper classes they use, one Dafny module per
Java file:

| Java file | Dafny module | puzzle |
|---|---|---|
| src/days/day01/SecretEntrance.java | `SecretEntrance` | a 100-position dial turned left and right: how often it lands on 0 (Silver) and how often it clicks past 0 (Gold) |
| src/SecretEntrance.java | `SecretEntranceLegacy` | the earlier version of the part-one dial, which uses Java's signed remainder |
| src/days/day02/GiftShop.java | `GiftShop` | sum of the ids in comma-separated ranges that are a digit block written twice |
| src/days/day03/Lobby.java | `Lobby` | the largest number made of k digits of a bank, kept in order (a monotonic stack), summed over the banks, for k = 2 and k = 12 |
| src/days/day04/PrintingDepartment.java | `PrintingDepartment` | paper rolls with fewer than four neighbours: how many can be reached, and how many can be removed over repeated passes |
| src/days/day05/Cafeteria.java | `Cafeteria` | fresh ingredient ids: which values fall in some range, and how many ids the merged ranges cover |
| src/days/day06/TrashCompactor.java | `TrashCompactor` | a worksheet of column problems read row-wise (Silver) and digit-column-wise (Gold) |
| src/days/day07/Laboratories.java | `Laboratories` | a beam moving down through splitters: the number of splits, and the number of timelines |
| src/days/day08/DSU.java | `DisjointSets` (class `DSU`) | union-find with path compression and union by size over arrays |
| src/days/day08/Playground.java | `Playground` | joining the closest junction boxes: the product of the three largest circuits after 1000 joins, and the first join that connects everything |
| src/days/day09/Line.java | `Lines` | a normalised axis-aligned segment and its point test |
| src/days/day09/MovieTheater.java | `MovieTheater` | the largest rectangle spanned by two red tiles, anywhere (Silver) and over the pairs that pass the program's corner-and-crossing test against the polygon they outline (Gold) |
| src/days/day10/Factory.java | `Factory`, with the GF(2) theory in `Gf2` | the fewest button presses that switch the lights to their target, by Gaussian elimination over GF(2) and a search over the free columns |
| src/days/day11/Reactor.java | `Reactor` (classes `PathSet`, `Memo`) | the number of paths from "you" to "out", and the memoised number of paths from "svr" to "out" through both "dac" and "fft" |
| src/days/day12/TreeFarm.java | `TreeFarm`, `TreeFarmShapes`, `TreeFarmOrientations`, `TreeFarmPlacements`, `TreeFarmPacker`, `TreeFarmRegions` | how many regions can hold their listed present shapes, by rotations, mirrors, placements and backtracking |

`Text` models the Java string library calls the solvers share (split,
strip/trim, `Integer.parseInt`/`Long.parseLong` on ASCII digits, `Long.toString`), and
`Sorting` models the in-place sorts by an integer key.

Where the Java code throws (a malformed number, an index past the end of a
list), the model's answer is `None` of an `Option`, and the contracts say
exactly which inputs fail (for text within the Basic Multilingual Plane, and up to the limits listed under "Left out"). Where a method works through a loop or changes an
array, the Dafny method does the same and is proved against a specification
function; the lemmas then state what that function promises: the answer is
the optimum, a count counts the right things, a parse reads back what was
written.

## Model

| member | source | states |
|---|---|---|
| SecretEntrance.ParseMove | src/days/day01/SecretEntrance.java:37-39 | a line reads as a move exactly when it is non-empty and the rest parses as an int; the direction is -1 exactly when the first character is 'L' |
| SecretEntrance.ParseMoveRoundTrip | src/days/day01/SecretEntrance.java:37-39 | a move written as a letter and a decimal count reads back as that move |
| SecretEntrance.Moves | src/days/day01/SecretEntrance.java:36-39 | one move per line, every one a left or right turn; None when any line fails to parse (charAt or parseInt throws) |
| SecretEntrance.MovesStayFailed | src/days/day01/SecretEntrance.java:36-39 | once a prefix of the lines fails to parse, the whole input fails |
| SecretEntrance.Turn | src/days/day01/SecretEntrance.java:54 | floorMod keeps the dial in 0..99 |
| SecretEntrance.DialAfter | src/days/day01/SecretEntrance.java:32-54 | the dial after any moves from 50 stays in 0..99 |
| SecretEntrance.Landings | src/days/day01/SecretEntrance.java:55-57 | at most one landing on 0 per move |
| SecretEntrance.FirstZero | src/days/day01/SecretEntrance.java:45-46 | the first click that can reach 0 is between 1 and 100 |
| SecretEntrance.HitAt | src/days/day01/SecretEntrance.java:45-46 | click n of a turn leaves the dial at 0 exactly when n is first_t plus a multiple of 100 |
| SecretEntrance.QuotientStep | src/days/day01/SecretEntrance.java:50 | the quotient by 100 steps up by one exactly at multiples of 100 |
| SecretEntrance.ClosedFormMatches | src/days/day01/SecretEntrance.java:48-51 | 1 + (value - first_t) / 100 counts the clicks first_t, first_t + 100, ... up to value |
| SecretEntrance.HitsMatch | src/days/day01/SecretEntrance.java:45-51 | the clicks that reach 0 are exactly those at first_t plus a multiple of 100 |
| SecretEntrance.CrossesCountsHits | src/days/day01/SecretEntrance.java:41-52 | the closed-form crosses of one move equals a click-by-click count of the zeros it passes |
| SecretEntrance.CrossingsAreClicks | src/days/day01/SecretEntrance.java:36-58 | Gold's total equals the number of clicks, over all moves, that leave the dial at 0 |
| SecretEntrance.LandingsAreClicks | src/days/day01/SecretEntrance.java:52-57 | Silver never counts more than Gold when every move has at least one click |
| SecretEntrance.LastClickHits | src/days/day01/SecretEntrance.java:54-56 | a move of at least one click that lands on 0 passes 0 at least once |
| SecretEntrance.TurnDial | src/days/day01/SecretEntrance.java:41-54 | the loop body computes the next dial and the zero passes of the move |
| SecretEntrance.MovesSnoc | src/days/day01/SecretEntrance.java:36-58 | one more line extends the moves by one, and dial, crossings and landings each take one step |
| SecretEntrance.MovesExtend | src/days/day01/SecretEntrance.java:36-39 | a line that parses appends its move to the moves read so far |
| SecretEntrance.FindPassword | src/days/day01/SecretEntrance.java:31-61 | the loop returns Gold's zero passes or Silver's landings, as method_0x selects, and fails exactly where a line fails to parse |
| SecretEntrance.SolveSilver | src/days/day01/SecretEntrance.java:70-72 | fails exactly on an unparsable line; otherwise the landings on 0, at most one per line |
| SecretEntrance.SolveGold | src/days/day01/SecretEntrance.java:81-83 | fails exactly on an unparsable line; otherwise the number of clicks that leave the dial at 0 |
| SecretEntranceLegacy.JavaRem | src/SecretEntrance.java:14 | Java's % by 100 lies strictly between -100 and 100 and has the sign of the dividend |
| SecretEntranceLegacy.JavaRemCongruent | src/SecretEntrance.java:14 | the truncated remainder is congruent to its dividend modulo 100 |
| SecretEntranceLegacy.JavaRemZero | src/SecretEntrance.java:14-16 | the truncated remainder is 0 exactly when the floored one is |
| SecretEntranceLegacy.Step | src/SecretEntrance.java:14 | the legacy dial after one move lies strictly between -100 and 100 |
| SecretEntranceLegacy.Dial | src/SecretEntrance.java:7-14 | the legacy dial after any moves stays strictly between -100 and 100 |
| SecretEntranceLegacy.ZeroCount | src/SecretEntrance.java:16-18 | at most one zero per move |
| SecretEntranceLegacy.DialSnoc | src/SecretEntrance.java:10-19 | one more move advances the dial by one step and the count by its landing |
| SecretEntranceLegacy.DialCongruent | src/SecretEntrance.java:14 | the legacy dial is always congruent, modulo 100, to the day 01 dial |
| SecretEntranceLegacy.NegativeDial | src/SecretEntrance.java:14 | L200 from 50 leaves the legacy dial at -50, outside 0..99 |
| SecretEntranceLegacy.ZeroCountIsLandings | src/SecretEntrance.java:16-18 | the legacy count always equals the day 01 Silver count |
| SecretEntranceLegacy.FindPassword | src/SecretEntrance.java:4-22 | fails exactly on an unparsable line; otherwise the legacy count of zeros |
| GiftShop.GetValues | src/days/day02/GiftShop.java:10-14 | one piece per comma-separated field, none containing a comma, each without leading or trailing blanks |
| GiftShop.GetValuesRoundTrip | src/days/day02/GiftShop.java:10-14 | pieces free of commas and of blanks at their ends, joined with commas, are read back exactly, provided the last of several pieces is not empty (split drops trailing empty fields) |
| GiftShop.SumRangesRead | src/days/day02/GiftShop.java:30-40 | when every range reads to its bounds, the answer is the sum of the invalid-id sums over those bounds |
| GiftShop.SilverOfPrintedRanges | src/days/day02/GiftShop.java:26-43 | a first line of printed ranges joined by commas makes Silver the total invalid-id sum over those ranges, whatever lines follow |
| GiftShop.RepeatedIffDoubled | src/days/day02/GiftShop.java:16-23 | the even-length, equal-halves test holds exactly when the string is some string written twice |
| GiftShop.InvalidIds | src/days/day02/GiftShop.java:16-23 | every digit string without a leading zero, written twice, is the decimal form of an invalid id |
| GiftShop.InvalidIdsAreDoubled | src/days/day02/GiftShop.java:16-23 | every invalid id is positive and its decimal form is a digit string without leading zero written twice |
| GiftShop.RangeSumSplit | src/days/day02/GiftShop.java:35-39 | the invalid-id sum of a..c is the sum of a..b plus that of b+1..c |
| GiftShop.ParseRange | src/days/day02/GiftShop.java:31-33 | a range reads only when splitting on '-' gives at least two fields; None where bounds[1] or parseLong would throw |
| GiftShop.ParseRangeRoundTrip | src/days/day02/GiftShop.java:31-33 | a range printed as "a-b" from two naturals reads back as (a, b) |
| GiftShop.SumRangesStayFailed | src/days/day02/GiftShop.java:30-40 | once one range is malformed the whole answer fails |
| GiftShop.SumRangesStep | src/days/day02/GiftShop.java:30-40 | one more well-formed range adds its invalid-id sum |
| GiftShop.SumRangesFailStep | src/days/day02/GiftShop.java:30-33 | a range that does not read makes the answer fail from that range on |
| GiftShop.AddRange | src/days/day02/GiftShop.java:30-40 | one pass of the outer loop extends the running answer by exactly the next range |
| GiftShop.SolveSilver | src/days/day02/GiftShop.java:26-43 | only the first line is read; fails on an empty input or a malformed range; otherwise the invalid ids of all ranges added up |
| GiftShop.SumAllRanges | src/days/day02/GiftShop.java:30-40 | the outer loop computes the sum over the ranges, failing at the first malformed one |
| GiftShop.ReadRange | src/days/day02/GiftShop.java:31-33 | the loop's reading of one range agrees with ParseRange |
| GiftShop.SumRange | src/days/day02/GiftShop.java:35-39 | the inner loop adds exactly the invalid ids from start to end, both included |
| GiftShop.SolveGold | src/days/day02/GiftShop.java:46-48 | Gold is not implemented and answers 0 for every input |
| Lobby.Pop | src/days/day03/Lobby.java:37-40 | the inner loop pops a suffix of the stack, only characters smaller than c, one allowed removal each; it stops at an empty stack, no removals left, or a top not smaller than c |
| Lobby.Cut | src/days/day03/Lobby.java:44-46 | the trimming loop keeps the bottom min(k, size) characters of the stack |
| Lobby.ScanCounts | src/days/day03/Lobby.java:34-42 | stack size plus removals spent equals the characters read; the removals left stay within 0..n-k |
| Lobby.ScanSubseq | src/days/day03/Lobby.java:36-42 | the stack is always a subsequence of the line read so far |
| Lobby.ScanOrder | src/days/day03/Lobby.java:36-42 | while removals remain the stack is non-increasing |
| Lobby.ScanDominates | src/days/day03/Lobby.java:36-42 | the stack is lexicographically at least every subsequence of the characters read that leaves out at most n-k of them |
| Lobby.DominatesStep | src/days/day03/Lobby.java:37-41 | one pop-and-push step preserves that dominance |
| Lobby.SelectedShape | src/days/day03/Lobby.java:31-49 | the kept digits are exactly min(k, n) characters of the line, in order |
| Lobby.SelectedIsBest | src/days/day03/Lobby.java:31-49 | no k characters of the line, taken in order, come lexicographically after the kept digits |
| Lobby.LtValue | src/days/day03/Lobby.java:51 | for digit strings of equal length, lexicographic order is numeric order (strict) |
| Lobby.LeValue | src/days/day03/Lobby.java:51 | for digit strings of equal length, lexicographic order is numeric order |
| Lobby.MaxJoltageIsBest | src/days/day03/Lobby.java:31-52 | on a digit line with k <= n the result parses and is at least the value of every k digits taken in order |
| Lobby.PopSmaller | src/days/day03/Lobby.java:37-40 | the inner while loop computes Pop |
| Lobby.TrimStack | src/days/day03/Lobby.java:44-46 | the trimming loop computes Cut |
| Lobby.MaxJoltageForLine | src/days/day03/Lobby.java:31-52 | the method computes the selected digits read as a number, None where Long.parseLong would throw |
| Lobby.SumStaysFailed | src/days/day03/Lobby.java:68-70 | once one line fails to parse the whole sum fails |
| Lobby.SumStep | src/days/day03/Lobby.java:68-70 | one more line adds its value, or fails the sum |
| Lobby.SumJoltage | src/days/day03/Lobby.java:66-72 | the loop adds the maximal joltage of every line, failing at the first unparsable line |
| Lobby.SolveSilver | src/days/day03/Lobby.java:65-73 | the sum of the best two-digit selections |
| Lobby.SolveGold | src/days/day03/Lobby.java:86-94 | the sum of the best twelve-digit selections |
| PrintingDepartment.RowWindow | src/days/day04/PrintingDepartment.java:35-41 | the '@' counted in one row of the window are at most the columns scanned |
| PrintingDepartment.WindowCount | src/days/day04/PrintingDepartment.java:34-42 | the 3x3 window, out-of-range cells skipped, holds at most nine '@' |
| PrintingDepartment.PartialBelowCount | src/days/day04/PrintingDepartment.java:37-39 | the running count part-way through the window never exceeds the whole window's count, so stopping at count > 4 decides the same |
| PrintingDepartment.IsAccessible | src/days/day04/PrintingDepartment.java:32-44 | the nested loop with its early return answers exactly whether the window, centre included, holds at most four '@' |
| PrintingDepartment.RowAccessible | src/days/day04/PrintingDepartment.java:62-65 | at most one counted cell per column |
| PrintingDepartment.RowPapersUpTo | src/days/day04/PrintingDepartment.java:97-99 | at most one roll per column |
| PrintingDepartment.RowAccessibleBound | src/days/day04/PrintingDepartment.java:62-65 | a row never has more accessible cells than rolls |
| PrintingDepartment.AccessibleAtMostPapers | src/days/day04/PrintingDepartment.java:61-66 | Silver never counts more cells than the board has rolls |
| PrintingDepartment.SolveSilver | src/days/day04/PrintingDepartment.java:56-69 | the count of non-'.' cells whose window holds at most four '@', and at most the number of rolls |
| PrintingDepartment.BelowTrans | src/days/day04/PrintingDepartment.java:112 | clearing cells composes: a board cleared from a board cleared from b is cleared from b |
| PrintingDepartment.RowPapersClear | src/days/day04/PrintingDepartment.java:112-113 | setting one roll cell to '.' lowers the row's roll count by one |
| PrintingDepartment.PapersSet | src/days/day04/PrintingDepartment.java:112-113 | replacing one row changes the board's roll count by the difference of the rows' counts |
| PrintingDepartment.Step | src/days/day04/PrintingDepartment.java:109-118 | an accessible roll is cleared and n_papers drops by one; any other cell leaves the board unchanged |
| PrintingDepartment.StepFrame | src/days/day04/PrintingDepartment.java:112 | one step changes at most the one cell it visits, and only to '.' |
| PrintingDepartment.SweepRow | src/days/day04/PrintingDepartment.java:108-119 | sweeping a row keeps the shape and never adds rolls |
| PrintingDepartment.SweepRowBelow | src/days/day04/PrintingDepartment.java:108-119 | sweeping a row only clears cells |
| PrintingDepartment.SweepRowFrame | src/days/day04/PrintingDepartment.java:108-119 | sweeping a row leaves the other rows, and the columns not yet reached, unchanged |
| PrintingDepartment.Sweep | src/days/day04/PrintingDepartment.java:104-122 | sweeping rows keeps the shape and never adds rolls |
| PrintingDepartment.SweepFrame | src/days/day04/PrintingDepartment.java:104-122 | sweeping the first l rows only clears cells and leaves the later rows unchanged |
| PrintingDepartment.Pass | src/days/day04/PrintingDepartment.java:103-122 | one pass keeps the shape and never adds rolls |
| PrintingDepartment.Rounds | src/days/day04/PrintingDepartment.java:102-125 | the passes repeat while rolls remain and the last pass removed one; they remove at most the rolls the board holds, so the loop ends |
| PrintingDepartment.ClearRowFixed | src/days/day04/PrintingDepartment.java:105-121 | a row marked inactive holds no roll, so skipping it is the same as sweeping it |
| PrintingDepartment.AccessibleMono | src/days/day04/PrintingDepartment.java:32-44 | removing rolls never makes a cell inaccessible |
| PrintingDepartment.SweepRowRemoves | src/days/day04/PrintingDepartment.java:108-119 | a row sweep removes at least the row's cells that were accessible on the original board |
| PrintingDepartment.StepRemoves | src/days/day04/PrintingDepartment.java:111-115 | a roll accessible on the original board is still removed when its cell is reached |
| PrintingDepartment.SweepRemoves | src/days/day04/PrintingDepartment.java:104-122 | the first pass removes at least every cell Silver counts in the rows swept |
| PrintingDepartment.GoldAtLeastSilver | src/days/day04/PrintingDepartment.java:56-126 | Gold's answer is at least Silver's on every board |
| PrintingDepartment.CountPapers | src/days/day04/PrintingDepartment.java:96-100 | the loop counts the non-'.' cells of the board |
| PrintingDepartment.SweepLine | src/days/day04/PrintingDepartment.java:106-121 | the column loop performs one row sweep, adds each removal to rolls, subtracts it from n_papers, sets changes when something was removed, and hasPaper tells whether a roll is left in the row |
| PrintingDepartment.SweepCell | src/days/day04/PrintingDepartment.java:109-118 | one iteration of the column loop extends the row sweep by one cell and keeps the counters in step |
| PrintingDepartment.RunPass | src/days/day04/PrintingDepartment.java:103-122 | one do-while body performs one pass, rows marked inactive hold no roll, and the counters follow the rolls removed |
| PrintingDepartment.PassLine | src/days/day04/PrintingDepartment.java:105-121 | one line-loop iteration sweeps the row, or skips a row that has no rolls |
| PrintingDepartment.SolveGold | src/days/day04/PrintingDepartment.java:82-126 | the rolls removed by repeated passes until one removes nothing or no roll remains |
| Cafeteria.ParseLine | src/days/day05/Cafeteria.java:34-44 | a line is blank exactly when it trims to nothing; a range line contains '-'; a value line contains none and its trimmed text parses to the value |
| Cafeteria.ParseRangeLine | src/days/day05/Cafeteria.java:37-41 | a range "a-b" printed from non-negative bounds reads back as that range |
| Cafeteria.ParseValueLine | src/days/day05/Cafeteria.java:42-44 | a printed non-negative value reads back as that value |
| Cafeteria.NegativeValueRejected | src/days/day05/Cafeteria.java:37-40 | a printed negative value contains '-', is taken for a range and fails (parts[0] is empty) |
| Cafeteria.ParsedStaysFailed | src/days/day05/Cafeteria.java:33-45 | once a line is malformed the whole parse fails |
| Cafeteria.ParsedCounts | src/days/day05/Cafeteria.java:33-45 | one range per range line, and ranges plus values never outnumber the lines |
| Cafeteria.ParseInput | src/days/day05/Cafeteria.java:29-48 | the parsing loop computes Parsed: ranges and values in input order, None on a malformed line |
| Cafeteria.Insert | src/days/day05/Cafeteria.java:57 | inserting one range into a list sorted by start keeps it sorted and adds exactly that range |
| Cafeteria.StartsBounded | src/days/day05/Cafeteria.java:57 | a permutation of ranges all starting at most b still all start at most b |
| Cafeteria.SortByStart | src/days/day05/Cafeteria.java:57 | the sort yields the same ranges, as a multiset, ordered by start |
| Cafeteria.PermutationCovers | src/days/day05/Cafeteria.java:57 | reordering the ranges does not change which values they cover |
| Cafeteria.InAnyAppend | src/days/day05/Cafeteria.java:68-72 | a value is covered by a list plus one range exactly when the list or the range covers it |
| Cafeteria.MergeFoldInvariant | src/days/day05/Cafeteria.java:62-71 | the merge loop keeps the emitted ranges separated, sorted and ending before curr starts |
| Cafeteria.JoinCovers | src/days/day05/Cafeteria.java:65-66 | extending curr by a range that starts inside it covers exactly what the two covered |
| Cafeteria.MergeFoldCovers | src/days/day05/Cafeteria.java:62-72 | the emitted ranges plus curr cover exactly what the ranges read so far cover |
| Cafeteria.MergeRangesCorrect | src/days/day05/Cafeteria.java:56-74 | the merged list is separated and covers exactly the values the input ranges cover |
| Cafeteria.MergeRangesLoop | src/days/day05/Cafeteria.java:59-73 | the loop over a sorted, non-empty list computes the merge |
| Cafeteria.MergeRangesMethod | src/days/day05/Cafeteria.java:56-74 | mergeRanges on a non-empty list returns separated ranges covering exactly the input's values |
| Cafeteria.IsInRanges | src/days/day05/Cafeteria.java:83-99 | binary search over separated ranges answers whether some range holds the value |
| Cafeteria.CountIn | src/days/day05/Cafeteria.java:119-123 | no more values counted than there are values |
| Cafeteria.CountInSameCover | src/days/day05/Cafeteria.java:116-123 | counting against merged ranges gives the same answer as against the input ranges |
| Cafeteria.SilverCountsCovered | src/days/day05/Cafeteria.java:111-126 | Silver counts the values, with repetitions, that lie in some input range |
| Cafeteria.SolveSilver | src/days/day05/Cafeteria.java:111-126 | fails on a malformed line or when there is no range (ranges.get(0) throws); otherwise the covered values counted |
| Cafeteria.CountFresh | src/days/day05/Cafeteria.java:117-123 | the loop counts the values the merged ranges cover |
| Cafeteria.SolveGold | src/days/day05/Cafeteria.java:138-151 | fails like Silver; otherwise the sum of end - start + 1 over the merged ranges |
| Cafeteria.SumLengths | src/days/day05/Cafeteria.java:144-148 | the loop adds end - start + 1 over the merged ranges |
| Cafeteria.CountCovered | src/days/day05/Cafeteria.java:146-148 | at most the width of the interval is covered |
| Cafeteria.CountCoveredSplit | src/days/day05/Cafeteria.java:146-148 | covered counts over adjacent intervals add up |
| Cafeteria.CountCoveredAgree | src/days/day05/Cafeteria.java:146-148 | lists that cover the same values count the same |
| Cafeteria.TotalCountsCovered | src/days/day05/Cafeteria.java:146-148 | for separated, non-empty ranges the summed lengths equal the number of integers covered |
| Cafeteria.GapUncovered | src/days/day05/Cafeteria.java:65-69 | nothing between two consecutive separated ranges is covered |
| Cafeteria.GoldCountsCovered | src/days/day05/Cafeteria.java:138-151 | when no input range is backwards, Gold is the number of distinct integers some range covers |
| Cafeteria.MergedTotalCounts | src/days/day05/Cafeteria.java:56-148 | the merged total of non-backwards ranges counts the integers they cover, each once |
| Cafeteria.MergedBounds | src/days/day05/Cafeteria.java:59-73 | separated non-empty ranges cover nothing before the first start or after the last end |
| TrashCompactor.ApplyOperator | src/days/day06/TrashCompactor.java:25-35 | the loop folds the numbers from the first, adding for '+' and multiplying for anything else |
| TrashCompactor.ApplyPlusIsSum | src/days/day06/TrashCompactor.java:28-29 | with '+' the result is the sum of the numbers |
| TrashCompactor.ApplyOtherIsProduct | src/days/day06/TrashCompactor.java:30-31 | with any other operator the result is the product of the numbers |
| TrashCompactor.ApplyReversed | src/days/day06/TrashCompactor.java:25-35 | reading the numbers in the opposite order (as Gold does, right to left) gives the same result |
| TrashCompactor.ColumnNumbers | src/days/day06/TrashCompactor.java:61-64 | when the column reads, it holds one number per row above the operator row |
| TrashCompactor.ColumnNumbersStayFailed | src/days/day06/TrashCompactor.java:62-64 | a missing or unparsable token fails the whole column |
| TrashCompactor.SilverSumStaysFailed | src/days/day06/TrashCompactor.java:57-67 | a failing problem fails the whole answer |
| TrashCompactor.ReadRows | src/days/day06/TrashCompactor.java:50-53 | the loop yields each line's whitespace tokens, in order |
| TrashCompactor.SolveColumn | src/days/day06/TrashCompactor.java:58-66 | one loop body computes the i-th problem: its operator from the last row, its numbers from the rows above |
| TrashCompactor.SolveSilver | src/days/day06/TrashCompactor.java:48-70 | fails on an empty input or a missing or unparsable token; otherwise the sum of the problems, one per token of the first line |
| TrashCompactor.SolveRows | src/days/day06/TrashCompactor.java:54-69 | the column loop adds the problems' values, failing at the first one that fails |
| TrashCompactor.SheetRows | src/days/day06/TrashCompactor.java:52 | a worksheet written with single spaces tokenises back into its rows of numbers and its operators |
| TrashCompactor.SheetColumnNumbers | src/days/day06/TrashCompactor.java:61-64 | on such a worksheet each token column reads back as the column of numbers |
| TrashCompactor.SilverSumValues | src/days/day06/TrashCompactor.java:57-67 | when every problem has a value, Silver's running sum is the sum of those values |
| TrashCompactor.SheetColumnValue | src/days/day06/TrashCompactor.java:58-66 | on such a worksheet each problem evaluates to its column combined by its operator |
| TrashCompactor.SilverReadsWorksheet | src/days/day06/TrashCompactor.java:48-70 | Silver of a worksheet printed from numbers and operators is the sum of its columns' results |
| TrashCompactor.MaxLength | src/days/day06/TrashCompactor.java:79-82 | the length of the longest line, 0 for no lines: at least every line's length and equal to one of them |
| TrashCompactor.PaddedShape | src/days/day06/TrashCompactor.java:84-93 | each padded line is its line followed by spaces up to the longest length |
| TrashCompactor.PadLines | src/days/day06/TrashCompactor.java:78-94 | the padding loops compute the padded lines |
| TrashCompactor.ColumnChars | src/days/day06/TrashCompactor.java:119-124 | the characters gathered from a column contain no space |
| TrashCompactor.ReadGroup | src/days/day06/TrashCompactor.java:116-129 | the do-while reads columns c down to the first one with a non-blank operator; the next scan starts two columns further left |
| TrashCompactor.ReadGroupShape | src/days/day06/TrashCompactor.java:116-129 | a group read from column c is that run of columns: numbers in reading order, operator under its leftmost column, blanks under the others |
| TrashCompactor.GroupShapeRead | src/days/day06/TrashCompactor.java:116-129 | conversely, a run of columns with that shape is read as exactly that group, so the do-while returns a group exactly when the columns have its shape |
| TrashCompactor.PaddedRect | src/days/day06/TrashCompactor.java:84-93 | after padding every line has the same length |
| TrashCompactor.ReadColumn | src/days/day06/TrashCompactor.java:117-124 | the StringBuilder loop gathers column c's non-space characters, top to bottom, above the operator line |
| TrashCompactor.ReadGroupLoop | src/days/day06/TrashCompactor.java:115-129 | the do-while computes ReadGroup, failing where parseLong or charAt(-1) would throw |
| TrashCompactor.SolveGold | src/days/day06/TrashCompactor.java:108-136 | fails on an empty input; otherwise the sum of the groups read right to left from the padded lines |
| TrashCompactor.SolveGrid | src/days/day06/TrashCompactor.java:110-135 | the outer loop adds the groups from the rightmost column leftwards |
| Laboratories.ReplaceBars | src/days/day07/Laboratories.java:25-35 | the line keeps its length |
| Laboratories.ReplaceBarsAt | src/days/day07/Laboratories.java:28-32 | a character becomes '\|' exactly when its index is listed, and is kept otherwise; out-of-range indices are ignored |
| Laboratories.ReplaceIndexesWithBar | src/days/day07/Laboratories.java:25-35 | the array loop computes ReplaceBars |
| Laboratories.Scan | src/days/day07/Laboratories.java:62-72 | at most one split per column scanned |
| Laboratories.ScanTargets | src/days/day07/Laboratories.java:62-72 | the indices to update are exactly the landing columns of the beams above: both neighbours below a '^', straight on otherwise |
| Laboratories.ScanSplits | src/days/day07/Laboratories.java:63-66 | beamSplits grows by the number of columns where a beam meets a '^' |
| Laboratories.BeamStep | src/days/day07/Laboratories.java:57-78 | after one step a cell of line i+1 is '\|' exactly when it already was or some beam above lands on it |
| Laboratories.SilverFromFrame | src/days/day07/Laboratories.java:57-78 | the loop rewrites only the lines i+1, i+3, ... and keeps every line's length |
| Laboratories.SilverOnlyOddLines | src/days/day07/Laboratories.java:52-78 | solveSilver leaves the even lines as they were and keeps every line's length |
| Laboratories.ShortAboveLengths | src/days/day07/Laboratories.java:62-63 | whether a step throws depends only on the line lengths |
| Laboratories.SilverFromFails | src/days/day07/Laboratories.java:57-78 | the loop from line i throws exactly when some visited line is longer than the line above it |
| Laboratories.SilverFails | src/days/day07/Laboratories.java:49-81 | solveSilver throws exactly on fewer than two lines or a visited even line longer than the line above |
| Laboratories.SolveSilver | src/days/day07/Laboratories.java:49-81 | the method returns the splits and leaves the list rewritten exactly as the specification function says |
| Laboratories.Spread | src/days/day07/Laboratories.java:105-117 | a successful row step yields one count per column |
| Laboratories.SpreadStaysFailed | src/days/day07/Laboratories.java:109 | once charAt throws the row step fails |
| Laboratories.Rows | src/days/day07/Laboratories.java:101-120 | the counts keep the number of columns through every row |
| Laboratories.PushBounds | src/days/day07/Laboratories.java:111-116 | pushing a count keeps counts non-negative; it adds c once through '.' and at most twice through a splitter |
| Laboratories.SpreadBounds | src/days/day07/Laboratories.java:105-117 | a row step at most doubles the number of timelines |
| Laboratories.RowsBounds | src/days/day07/Laboratories.java:101-120 | after the remaining rows the total is at most 2^rows times the starting total |
| Laboratories.GoldBounds | src/days/day07/Laboratories.java:95-125 | Gold counts between 0 and 2^(rows-1) timelines |
| Laboratories.SpreadPulls | src/days/day07/Laboratories.java:105-117 | where the line covers the row, each new count is the sum of the counts that reach its column from above |
| Laboratories.SpreadIsPull | src/days/day07/Laboratories.java:105-117 | the push loop agrees with the pull recurrence on every column |
| Laboratories.NextRow | src/days/day07/Laboratories.java:102-117 | the row loop fills a fresh array with the spread counts, or reports where charAt throws |
| Laboratories.SolveGold | src/days/day07/Laboratories.java:95-125 | fails on an empty input, an empty first line or a throwing charAt; otherwise the sum of the final counts |
| DisjointSets.RootOf | src/days/day08/DSU.java:42-46 | following the links from i ends at an element that is its own parent |
| DisjointSets.RootAbove | src/days/day08/DSU.java:42-46 | an element is its own root exactly when it is its own parent; any other element ranks strictly below its root |
| DisjointSets.RootsIdempotent | src/days/day08/DSU.java:42-46 | the root of every element's root is that root |
| DisjointSets.Compress | src/days/day08/DSU.java:43-44 | pointing a at its root keeps the forest well-founded and changes no element's root |
| DisjointSets.LinkRoots | src/days/day08/DSU.java:66 | linking root rb under root ra gives every element of rb's set the root ra and leaves the others' roots unchanged |
| DisjointSets.RelinkMembers | src/days/day08/DSU.java:66-67 | after the link ra's set is the union of the two disjoint sets, and every other set is untouched |
| DisjointSets.LinkedMerges | src/days/day08/DSU.java:66 | after the link two elements share a root exactly when they did before or one was in each of the two sets |
| DisjointSets.LinkSizes | src/days/day08/DSU.java:66-67 | adding size[rb] to size[ra] keeps every root's size equal to its number of elements |
| DisjointSets.RootSizesSumToN | src/days/day08/DSU.java:16-67 | the sizes kept at the roots add up to the number of elements |
| DisjointSets.DSU.constructor | src/days/day08/DSU.java:23-31 | n singletons: every element its own parent, every size 1 |
| DisjointSets.DSU.Find | src/days/day08/DSU.java:42-46 | returns a's root, which is its own parent; path compression changes no element's root and no size |
| DisjointSets.DSU.Union | src/days/day08/DSU.java:58-68 | merges the sets of a and b under the root of the larger one (a's on ties), sizes kept, nothing else changed |
| DisjointSets.DSU.Attach | src/days/day08/DSU.java:66-67 | linking two different roots merges exactly their two sets and adds the sizes |
| DisjointSets.DSU.RootInRange | src/days/day08/DSU.java:42-46 | every element's root is an element |
| DisjointSets.DSU.RootIsOwn | src/days/day08/DSU.java:42-46 | a root is its own root |
| DisjointSets.DSU.SizesSumToN | src/days/day08/DSU.java:23-67 | the sizes kept at the roots always add up to n |
| Playground.ParseAllLines | src/days/day08/Playground.java:33-40 | the input parses exactly when every line does, and point i comes from line i |
| Playground.ParsePoints | src/days/day08/Playground.java:29-42 | the loop computes the points, failing where split or parseInt would throw |
| Playground.ParseAllStaysFailed | src/days/day08/Playground.java:33-40 | once a line fails the whole parse fails |
| Playground.PairsUpToCount | src/days/day08/Playground.java:55-63 | the rows 0 .. k-1 of the nested loops add k(2n-k-1)/2 pairs |
| Playground.PairsUpToMembers | src/days/day08/Playground.java:55-63 | those rows hold exactly the pairs a < b with a < k, each with its squared distance |
| Playground.PairsUpToOrder | src/days/day08/Playground.java:55-63 | the loops add the pairs in strictly increasing (i, j) order |
| Playground.AllPairsShape | src/days/day08/Playground.java:55-63 | every pair i < j exactly once, with its squared distance; n(n-1)/2 of them |
| Playground.SortedPairsShape | src/days/day08/Playground.java:65 | the sorted list is a permutation of the pairs, ordered by squared distance |
| Playground.ComputeSortedPairs | src/days/day08/Playground.java:51-67 | the loops and sort compute the stably sorted pairs |
| Playground.UnionRelabels | src/days/day08/Playground.java:92 | a union puts together exactly the points of the two circuits |
| Playground.ClassSizesSame | src/days/day08/Playground.java:97-103 | the circuit sizes depend only on which points are together, not on the root names |
| Playground.ClassSizesSum | src/days/day08/Playground.java:97-103 | the circuit sizes add up to the number of points |
| Playground.FirstIdxCount | src/days/day08/Playground.java:97-103 | there is one size per circuit |
| Playground.CircuitSizesCount | src/days/day08/Playground.java:90-103 | after the joins there is one size per circuit left, and they add up to the number of points |
| Playground.SilverLargest | src/days/day08/Playground.java:81-111 | Silver fails exactly when fewer than three circuits remain; otherwise it is the product of the three largest circuit sizes |
| Playground.SolveSilver | src/days/day08/Playground.java:81-111 | the method computes Silver: parse, join the 1000 closest pairs, tally, sort descending, multiply three |
| Playground.Join | src/days/day08/Playground.java:85-95 | the forest after the union loop puts together exactly what joining the first min(1000, pairs) pairs does |
| Playground.Unite | src/days/day08/Playground.java:92 | one union keeps the forest in step with the labels |
| Playground.JoinStep | src/days/day08/Playground.java:90-95 | one loop iteration keeps the forest in step with the labels of the pairs joined so far |
| Playground.TallyStep | src/days/day08/Playground.java:98-101 | counting point i raises its root's count; a root seen for the first time joins the keys |
| Playground.TallyDone | src/days/day08/Playground.java:97-103 | after every point the keys' counts are the circuit sizes |
| Playground.Tally | src/days/day08/Playground.java:97-103 | the HashMap loop yields the circuit sizes and leaves the circuits as they were |
| Playground.GoldStep | src/days/day08/Playground.java:132-147 | one iteration skips a pair already together, answers on the join that leaves one circuit, and continues otherwise |
| Playground.FirstJoin | src/days/day08/Playground.java:132-147 | the pair found, if any, lies at or after the starting pair |
| Playground.RelabelJoins | src/days/day08/Playground.java:139-141 | joining two different circuits removes exactly one, so components stays the number of circuits |
| Playground.IdentityClasses | src/days/day08/Playground.java:129-130 | n singletons are n circuits |
| Playground.GoldFromFirstJoin | src/days/day08/Playground.java:132-149 | the loop's answer is the x product of the first pair whose union leaves one circuit, or 0 when none does |
| Playground.GoldIsFirstJoin | src/days/day08/Playground.java:125-150 | Gold is the x product of the first sorted pair that joins everything, or 0 |
| Playground.SolveGold | src/days/day08/Playground.java:125-150 | the method computes Gold, failing only when a line does not parse |
| Playground.Connect | src/days/day08/Playground.java:129-149 | the union loop over the sorted pairs, from n singletons, returns what GoldFrom describes: the x product at the join that leaves one circuit, or 0 |
| Lines.MakeLine | src/days/day09/Line.java:37-47 | the segment has the two given points as its ends, stored from the lexicographically smaller one, so dx >= 0 and dy >= 0 when dx == 0 |
| Lines.MakeLineSymmetric | src/days/day09/Line.java:37-47 | the same segment whichever endpoint is given first |
| Lines.PointOnSegment | src/days/day09/Line.java:59-67 | for an axis-aligned segment a point is on it exactly when it lies between the ends on both axes; a slanted segment holds no point |
| Lines.EndsOn | src/days/day09/Line.java:59-67 | both endpoints of an axis-aligned segment lie on it |
| MovieTheater.ParseAllLines | src/days/day09/MovieTheater.java:34-40 | the input parses exactly when every line does, and point i comes from line i |
| MovieTheater.ParseAllStaysFailed | src/days/day09/MovieTheater.java:34-40 | once a line fails the whole parse fails |
| MovieTheater.ParsePoints | src/days/day09/MovieTheater.java:30-42 | the loop computes the points, failing where split or parseLong would throw |
| MovieTheater.Area | src/days/day09/MovieTheater.java:55-57 | a rectangle with borders included covers at least one tile |
| MovieTheater.AreaSymmetric | src/days/day09/MovieTheater.java:55-57 | the area does not depend on which corner comes first |
| MovieTheater.LargestAreaZero | src/days/day09/MovieTheater.java:70-84 | the largest area is unique, and 0 exactly when there are fewer than two points |
| MovieTheater.MaxRow | src/days/day09/MovieTheater.java:75-80 | one row of the scan keeps the best as an upper bound on the rows so far, attained by a pair |
| MovieTheater.MaxArea | src/days/day09/MovieTheater.java:72-81 | the nested loops find the largest area over all pairs of distinct points |
| MovieTheater.SolveSilver | src/days/day09/MovieTheater.java:70-84 | fails exactly when a line does not parse; otherwise the largest rectangle spanned by two of the points |
| MovieTheater.EdgesCycle | src/days/day09/MovieTheater.java:92-104 | one edge per point, edge k joining point k to the next point, the last one back to the first |
| MovieTheater.BuildLines | src/days/day09/MovieTheater.java:92-115 | the loop computes those edges, each normalised |
| MovieTheater.FilterMembers | src/days/day09/MovieTheater.java:173-176 | filtering keeps exactly the edges that satisfy the test |
| MovieTheater.SplitLines | src/days/day09/MovieTheater.java:170-176 | the horizontal edges in one list, the vertical ones in the other, slanted edges in neither, order kept |
| MovieTheater.Crossings | src/days/day09/MovieTheater.java:131-136 | at most one crossing per horizontal edge |
| MovieTheater.CrossingsBelow | src/days/day09/MovieTheater.java:131-136 | the count is positive exactly when some horizontal edge below the point covers x in [h.x, h.x + dx) |
| MovieTheater.IsInside | src/days/day09/MovieTheater.java:127-138 | true exactly when the point is on an edge or has an odd number of crossings below it |
| MovieTheater.IntersectsIsInteriorMeet | src/days/day09/MovieTheater.java:147-152 | a horizontal and a vertical segment intersect exactly when they share a point that is an endpoint of neither |
| MovieTheater.ParallelNeverIntersect | src/days/day09/MovieTheater.java:147-152 | two parallel axis-aligned segments never intersect, even when they overlap |
| MovieTheater.GoldAtMostSilver | src/days/day09/MovieTheater.java:70-221 | Gold never exceeds Silver |
| MovieTheater.ClearOf | src/days/day09/MovieTheater.java:206-213 | the loop with its break answers whether no edge cuts through either side |
| MovieTheater.CheckPair | src/days/day09/MovieTheater.java:189-214 | the pair is accepted exactly when its four corners are inside and no edge cuts through a side with its corners cut off |
| MovieTheater.Consider | src/days/day09/MovieTheater.java:183-216 | the best only grows, stays attained, and covers the pair when it is accepted |
| MovieTheater.ScanRow | src/days/day09/MovieTheater.java:181-217 | one row of the scan keeps the best as an upper bound over the accepted pairs so far |
| MovieTheater.ScanDone | src/days/day09/MovieTheater.java:180-218 | at the end the best is the largest accepted area |
| MovieTheater.SolveGold | src/days/day09/MovieTheater.java:165-221 | fails when a line does not parse or there are no points (pts[n - 1]); otherwise the largest area over the pairs that pass the corner-and-crossing test: four corners inside or on the outline, and no edge strictly crossing a side with its corners trimmed |
| MovieTheater.AcceptedNotContained | src/days/day09/MovieTheater.java:189-214 | the test is not containment: on a square room with a notch cut into one wall, it accepts the whole square (area 121) although a tile inside the square, (2, 5), is outside the polygon |
| Gf2.DotXorLeft | src/days/day10/Factory.java:153-155 | the GF(2) inner product is linear in the equation |
| Gf2.DotXorRight | src/days/day10/Factory.java:200 | the GF(2) inner product is linear in the unknowns |
| Gf2.WeightZero | src/days/day10/Factory.java:205 | the weight is 0 exactly for the zero vector |
| Gf2.SwapSame | src/days/day10/Factory.java:145-148 | exchanging two equations, right-hand sides included, keeps the solutions |
| Gf2.AddRowSame | src/days/day10/Factory.java:150-156 | adding one equation into another keeps the solutions |
| Gf2.EchelonStart | src/days/day10/Factory.java:135-137 | before the first column nothing is reduced |
| Gf2.EchelonDone | src/days/day10/Factory.java:139 | when the columns or rows run out the matrix is fully reduced |
| Gf2.EchelonSkip | src/days/day10/Factory.java:140-144 | a column with no 1 from the current row on gets no pivot and keeps the form |
| Gf2.EchelonSwap | src/days/day10/Factory.java:145-148 | exchanging two rows without a pivot keeps the form |
| Gf2.ClearStep | src/days/day10/Factory.java:150-157 | clearing one more row is one row addition |
| Gf2.ClearSame | src/days/day10/Factory.java:150-157 | clearing a column keeps the solutions |
| Gf2.EchelonPivot | src/days/day10/Factory.java:149-158 | after choosing the pivot and clearing its column the form extends by one row and one column |
| Gf2.ParticularAt | src/days/day10/Factory.java:161-168 | each pivot variable takes its row's right-hand side, every free variable 0 |
| Gf2.BasisAt | src/days/day10/Factory.java:177-188 | the vector of free column f has f set, each pivot variable equal to its row's entry in f, the other free variables 0 |
| Gf2.PivotRow | src/days/day10/Factory.java:163-166 | a pivot column is the pivot of one of the first rank rows |
| Gf2.ParticularSolves | src/days/day10/Factory.java:161-168 | when the rows without a pivot ask for 0 the particular vector solves the system |
| Gf2.BasisSolves | src/days/day10/Factory.java:177-188 | each basis vector solves the homogeneous system |
| Gf2.SolvableConsistent | src/days/day10/Factory.java:161-168 | a solvable reduced system asks for 0 on the rows without a pivot |
| Gf2.FreeDetermines | src/days/day10/Factory.java:170-188 | two solutions of a reduced system that agree on the free columns are equal |
| Gf2.FreeUpToShape | src/days/day10/Factory.java:170-175 | the free columns are exactly the non-pivot columns, ascending |
| Gf2.MaskOf | src/days/day10/Factory.java:195-204 | the mask whose bits, lowest first, are the given bits is below 2^k and is 0 only for no bits |
| Gf2.XorSolves | src/days/day10/Factory.java:197-204 | adding a homogeneous solution to a solution gives a solution |
| Gf2.ComboSolves | src/days/day10/Factory.java:192-204 | every mask's combination solves the system |
| Gf2.ComboFree | src/days/day10/Factory.java:194-204 | a mask's combination sets each free column to its particular value xor the mask's bit |
| Gf2.Completeness | src/days/day10/Factory.java:190-207 | every solution is the particular vector plus the combination of some mask below 2^k |
| Gf2.FewestFromCombos | src/days/day10/Factory.java:190-209 | for a solvable system the fewest ones over all masks is the fewest ones of any solution |
| Gf2.FewestSame | src/days/day10/Factory.java:131-159 | systems with the same solutions have the same fewest ones |
| Gf2.FewestAfterElimination | src/days/day10/Factory.java:131-209 | the minimum found on the reduced system is the minimum over the original system's solutions |
| Factory.Numbers | src/days/day10/Factory.java:107-111 | the parts read exactly when every part is an int; the numbers in order |
| Factory.ReadAllAt | src/days/day10/Factory.java:100-115 | the buttons read exactly when every group reads, one button per group, in order |
| Factory.ParseButton | src/days/day10/Factory.java:106-111 | the group's trimmed text split on ',' with every part read as an int |
| Factory.ParseNumbers | src/days/day10/Factory.java:108-111 | the loop reads every part, failing where parseInt would throw |
| Factory.NextGroup | src/days/day10/Factory.java:101-114 | the next "(...)" group from idx, or the end of the scan when no complete group is left |
| Factory.ReadMore | src/days/day10/Factory.java:113 | a group read into a button extends both the groups seen and the buttons read |
| Factory.ReadFails | src/days/day10/Factory.java:110 | a group that fails to read fails the whole line |
| Factory.ParseButtons | src/days/day10/Factory.java:98-115 | the loop reads every group of the buttons part, in order |
| Factory.ReadMachine | src/days/day10/Factory.java:91-115 | the method locates the brackets and the brace and reads the machine, failing where substring or parseInt would throw |
| Factory.ReadParts | src/days/day10/Factory.java:93-115 | the lights between the brackets and the buttons after them, up to the brace when there is one |
| Factory.Toggles | src/days/day10/Factory.java:118-129 | the matrix has one row per light and one column per button |
| Factory.Target | src/days/day10/Factory.java:119-122 | one bit per light |
| Factory.DotIsParity | src/days/day10/Factory.java:123-129 | light i's equation is the parity of the presses that toggle it, out-of-range positions ignored |
| Factory.PressesSolves | src/days/day10/Factory.java:118-129 | the solutions of the system are exactly the press sets that leave the '#' lights on |
| Factory.FewestIsPresses | src/days/day10/Factory.java:118-209 | the fewest ones of a solution is the fewest presses |
| Factory.PressableSolvable | src/days/day10/Factory.java:118-129 | a machine some press set can light has a solvable system |
| Factory.BuildTarget | src/days/day10/Factory.java:119-122 | b[i] is set exactly when light i is '#' |
| Factory.BuildMatrix | src/days/day10/Factory.java:118-129 | A[i][j] is set exactly when button j lists light i an odd number of times |
| Factory.CopyMatrix | src/days/day10/Factory.java:131-132 | a fresh copy with the same rows |
| Factory.FindPivot | src/days/day10/Factory.java:140-143 | the first row from row on with a 1 in col, or -1 when there is none |
| Factory.SwapRows | src/days/day10/Factory.java:145-148 | rows a and b and their right-hand sides exchanged |
| Factory.AddRowFrom | src/days/day10/Factory.java:152-154 | row p added into row r from column col on |
| Factory.ClearColumn | src/days/day10/Factory.java:150-157 | the pivot row added into every other row with a 1 in col, right-hand sides included |
| Factory.EliminateColumn | src/days/day10/Factory.java:139-158 | one column step extends the reduced form and keeps the solutions |
| Factory.SwapUp | src/days/day10/Factory.java:145-148 | the selected row brought up keeps the form and the solutions |
| Factory.TakePivot | src/days/day10/Factory.java:149-158 | making row the pivot row of col extends the form by one row and keeps the solutions |
| Factory.Eliminate | src/days/day10/Factory.java:135-159 | the elimination leaves a reduced system with the same solutions |
| Factory.BuildParticular | src/days/day10/Factory.java:161-168 | the loop computes the particular vector |
| Factory.FreeColumns | src/days/day10/Factory.java:170-175 | the loop lists the non-pivot columns, ascending |
| Factory.FillBasisRow | src/days/day10/Factory.java:179-188 | row i of the basis becomes the vector of free column f, other rows unchanged |
| Factory.BuildBasis | src/days/day10/Factory.java:177-188 | one null-space vector per free column, in order |
| Factory.ShiftLeftOne | src/days/day10/Factory.java:191 | Java's 1 << k is 2^k for k < 31 and never more than 2^k |
| Factory.XorInto | src/days/day10/Factory.java:199-200 | x becomes x xor basis row bi |
| Factory.ComboStep | src/days/day10/Factory.java:197-204 | one step of the bit loop: xor the row when the low bit is set, then shift |
| Factory.Combination | src/days/day10/Factory.java:194-204 | the particular vector plus the basis rows the mask's bits choose |
| Factory.CountOnes | src/days/day10/Factory.java:205 | the number of set bits |
| Factory.MaskWeight | src/days/day10/Factory.java:193-205 | the weight of the mask's combination |
| Factory.FewestWeight | src/days/day10/Factory.java:190-209 | for fewer than 31 free columns, the fewest weight over every mask's combination |
| Factory.FewestReduced | src/days/day10/Factory.java:161-209 | whenever fewer than 31 columns are free (and the unknowns fit an int), the fewest weight over the reduced system's combinations, at most the particular vector's |
| Factory.FewestSolution | src/days/day10/Factory.java:131-209 | for fewer than 31 buttons and a solvable system, the fewest ones of any solution, and never more than the number of buttons |
| Factory.SolveMachineLights | src/days/day10/Factory.java:90-210 | fails exactly when the line does not parse; with fewer than 31 buttons and a lightable diagram, the fewest button presses that light it |
| Factory.EverySnoc | src/days/day10/Factory.java:20 | every line of a one-longer prefix satisfies p exactly when the prefix and the new line do |
| Factory.TotalSnoc | src/days/day10/Factory.java:20 | adding one machine's fewest presses extends the total |
| Factory.SilverStep | src/days/day10/Factory.java:20 | one more line keeps the running sum's meaning |
| Factory.SolveSilver | src/days/day10/Factory.java:18-22 | fails exactly when a line does not parse; when every machine is tractable, the sum of each machine's fewest presses |
| Reactor.ReadSuccessors | src/days/day11/Reactor.java:63-74 | the loop reads a line's outputs: the non-empty whitespace tokens after its first ':', trimmed, in order |
| Reactor.ReadNode | src/days/day11/Reactor.java:63-64 | the node a line names: the text before its first ':', trimmed |
| Reactor.TableSnoc | src/days/day11/Reactor.java:60-76 | one more line either is skipped or puts its node's outputs into the map |
| Reactor.ParseInput | src/days/day11/Reactor.java:58-78 | the loop builds the graph of all lines |
| Reactor.GraphKeys | src/days/day11/Reactor.java:60-76 | the graph has a node exactly when some non-blank line names it |
| Reactor.LastLineWins | src/days/day11/Reactor.java:75 | a node's outputs are those of the last non-blank line that names it |
| Reactor.ParseRender | src/days/day11/Reactor.java:60-76 | a line rendered as "node: o1 o2 ..." reads back as that node and those outputs |
| Reactor.PathsSound | src/days/day11/Reactor.java:89-100 | every enumerated path starts at the node and is a simple path to "out" that avoids the visited set |
| Reactor.PathsComplete | src/days/day11/Reactor.java:89-100 | every simple path to "out" avoiding the visited set is enumerated from its first node |
| Reactor.DfsCount | src/days/day11/Reactor.java:89-100 | returns the length of the enumeration of simple paths from node to "out" avoiding the visited set, which is the number of distinct such paths when no device lists an output twice, and restores the visited set |
| Reactor.SolveSilver | src/days/day11/Reactor.java:29-32 | the length of the enumeration from "you"; when no device lists an output twice, the number of distinct paths it lists, which are exactly the simple paths from "you" to "out" |
| Reactor.ThroughAppend | src/days/day11/Reactor.java:132-135 | the paths that count add up over a concatenation |
| Reactor.ThroughPrepend | src/days/day11/Reactor.java:114-115 | a node in front of every path counts as seen before them |
| Reactor.ThroughAll | src/days/day11/Reactor.java:121 | with both flags set every path counts |
| Reactor.ThroughMonotone | src/days/day11/Reactor.java:114-115 | setting a flag never loses a path |
| Reactor.SpecialCountsPaths | src/days/day11/Reactor.java:113-139 | when no cycle can be reached from the node, the memoised count equals the number of enumerated paths to "out" through "fft" and "dac", flags counting as already seen |
| Reactor.SpecialAll | src/days/day11/Reactor.java:113-139 | with both flags set, part two's count is part one's number of paths |
| Reactor.SpecialMonotone | src/days/day11/Reactor.java:114-115 | a set flag never lowers the count |
| Reactor.SpecialFlags | src/days/day11/Reactor.java:114-117 | the count depends on the flags only as updated for the node itself, which is what the memo key records |
| Reactor.MemoPut | src/days/day11/Reactor.java:117-137 | storing a state's count under the node and its updated flags keeps every stored count correct |
| Reactor.CountSpecial | src/days/day11/Reactor.java:113-139 | when no cycle can be reached from the node, returns the number of enumerated paths through "fft" and "dac" from the state, keeps the memo correct and only adds keys |
| Reactor.SolveGold | src/days/day11/Reactor.java:46-50 | when no cycle can be reached from "svr", the number of enumerated paths from "svr" to "out" that pass through both "fft" and "dac"; when no device lists an output twice, the number of distinct such simple paths |
| Reactor.PathsDistinct | src/days/day11/Reactor.java:89-100 | when no device lists an output twice, the enumeration lists no path twice |
| Reactor.ViaDistinct | src/days/day11/Reactor.java:95-97 | paths through different successors differ at their second node, and those through one successor are distinct |
| Reactor.ThroughCountsSet | src/days/day11/Reactor.java:121-135 | over a list without repeats, the count is the size of the set of counted paths |
| Reactor.PathsCountSimplePaths | src/days/day11/Reactor.java:89-100 | without repeated outputs, the enumeration lists exactly the simple paths, each once: its length is their number, and its count through "fft" and "dac" the number of those paths through both |
| TreeFarm.ReadLinesFacts | src/days/day12/TreeFarm.java:39-69 | the reading loop only ever stores trimmed shapes, keeps only non-empty lines in the buffer, and has an empty buffer once region lines start |
| TreeFarm.BlankBlock | src/days/day12/TreeFarm.java:148-161 | a block becomes the empty shape exactly when no line holds a '#' within the first line's width (longer lines are cut to that width) |
| TreeFarm.EndShape | src/days/day12/TreeFarm.java:70-73 | the last buffered block is closed into a shape after the loop |
| TreeFarm.ParseInput | src/days/day12/TreeFarm.java:36-73 | the loop splits the input into the shapes and the region lines the reader defines |
| TreeFarm.ReadRegion | src/days/day12/TreeFarm.java:82-91 | a region line that matches yields one count per shape |
| TreeFarm.ReadRegionLine | src/days/day12/TreeFarm.java:82-91 | the method reads a region line as the header match and the count parse define |
| TreeFarm.ReadCounts | src/days/day12/TreeFarm.java:87-91 | the loop fills one count per shape from the tokens, 0 past the last token, and fails on a non-numeric token |
| TreeFarm.FitCountFails | src/days/day12/TreeFarm.java:80-125 | the region count fails exactly when one of the region lines read so far has a count that is not a number |
| TreeFarm.SilverFails | src/days/day12/TreeFarm.java:32-128 | the part one answer fails exactly when some shape is blank (its orientations cannot be built) or some region line has a non-numeric count |
| TreeFarm.BuildPieces | src/days/day12/TreeFarm.java:102-105 | the loop lists each shape index as many times as its count |
| TreeFarm.BuildLists | src/days/day12/TreeFarm.java:112-117 | the map has a key exactly for each shape with a non-zero count, holding all in-region placements of its orientations |
| TreeFarm.PiecesHaveLists | src/days/day12/TreeFarm.java:112-120 | every listed piece has its placement list in the map |
| TreeFarm.TotalCells | src/days/day12/TreeFarm.java:93-97 | the loop sums each shape's area times its count |
| TreeFarm.FitRegion | src/days/day12/TreeFarm.java:93-124 | the region step answers whether all the pieces fit: area pruning, the no-piece case and the search agree with the fitting definition |
| TreeFarm.Search | src/days/day12/TreeFarm.java:112-124 | building the lists, sorting the pieces and searching decides exactly whether the pieces fit |
| TreeFarm.OrderPieces | src/days/day12/TreeFarm.java:119-120 | the sorted order is a permutation of the pieces with non-decreasing placement-list sizes |
| TreeFarm.AllOrientations | src/days/day12/TreeFarm.java:75-78 | building the orientations fails exactly when some shape is blank; otherwise each shape gets its deduplicated rotations and mirrors |
| TreeFarm.CountRegion | src/days/day12/TreeFarm.java:81-124 | one pass of the region loop adds one for a fitting region, skips a non-matching line and fails on a bad count |
| TreeFarm.CountFits | src/days/day12/TreeFarm.java:80-127 | the loop counts the regions the pieces fit into |
| TreeFarm.RegionStep | src/days/day12/TreeFarm.java:81-125 | each pass extends the count over one more region line |
| TreeFarm.SolveSilver | src/days/day12/TreeFarm.java:32-128 | part one is the number of region lines whose listed pieces can be packed without overlap |
| TreeFarm.SolveGold | src/days/day12/TreeFarm.java:140-143 | part two is always 0 |
| TreeFarmShapes.GlyphCells | src/days/day12/TreeFarm.java:149-158 | a cell is filled exactly when its line is long enough and holds '#' there; short lines are padded with '.' |
| TreeFarmShapes.BufferToShape | src/days/day12/TreeFarm.java:148-161 | the loop builds the padded grid and trims it |
| TreeFarmShapes.TrimmedShape | src/days/day12/TreeFarm.java:166-189 | trimming gives the empty shape exactly for a grid with no cell; otherwise a tight rectangle with the same number of cells, shifted to the origin |
| TreeFarmShapes.TrimmedCells | src/days/day12/TreeFarm.java:182-188 | the trimmed cells are the original cells shifted by the bounding box's corner |
| TreeFarmShapes.TrimmedTight | src/days/day12/TreeFarm.java:182-188 | the trimmed grid has a filled cell in its first and last row and column |
| TreeFarmShapes.BoundsWitnesses | src/days/day12/TreeFarm.java:168-178 | each side of the bounding box is touched by a filled cell |
| TreeFarmShapes.ScanBounds | src/days/day12/TreeFarm.java:167-178 | the scan finds the smallest and largest filled column and row |
| TreeFarmShapes.TrimShape | src/days/day12/TreeFarm.java:166-189 | the method computes the trimmed grid |
| TreeFarmShapes.ShapeArea | src/days/day12/TreeFarm.java:194-200 | the loop counts the filled cells |
| TreeFarmShapes.RotatedCells | src/days/day12/TreeFarm.java:248-253 | rotating maps each cell (x, y) to (H - 1 - y, x) and keeps the cell count |
| TreeFarmShapes.FlippedCells | src/days/day12/TreeFarm.java:261-266 | mirroring maps each cell (x, y) to (W - 1 - x, y) and keeps the cell count |
| TreeFarmShapes.Rotate | src/days/day12/TreeFarm.java:248-253 | the loop computes the clockwise quarter turn |
| TreeFarmShapes.FlipHorizontal | src/days/day12/TreeFarm.java:261-266 | the loop computes the left-right mirror |
| TreeFarmOrientations.CoordsFacts | src/days/day12/TreeFarm.java:215-221 | the coordinate list holds exactly the filled cells, once each, in row-major order |
| TreeFarmOrientations.CollectCoords | src/days/day12/TreeFarm.java:215-221 | the loop collects the filled cells in row-major order |
| TreeFarmOrientations.Candidates | src/days/day12/TreeFarm.java:209-237 | there are eight candidates, two per quarter turn |
| TreeFarmOrientations.RotationsArea | src/days/day12/TreeFarm.java:209-237 | repeated quarter turns keep the number of cells |
| TreeFarmOrientations.CandidateFacts | src/days/day12/TreeFarm.java:213-221 | each candidate lists as many distinct cells as the shape has, with non-negative coordinates touching both axes |
| TreeFarmOrientations.FourTurns | src/days/day12/TreeFarm.java:248-253 | four quarter turns give back the shape |
| TreeFarmOrientations.TightTrimmed | src/days/day12/TreeFarm.java:166-189 | trimming a tight grid changes nothing |
| TreeFarmOrientations.CandidateShapeSix | src/days/day12/TreeFarm.java:209-237 | the unmirrored candidate of the fourth turn is the shape itself |
| TreeFarmOrientations.OwnOrientationIsCandidate | src/days/day12/TreeFarm.java:205-240 | the shape's own cell list is among its candidates |
| TreeFarmOrientations.DedupedCandidates | src/days/day12/TreeFarm.java:226-235 | removing repeats keeps every candidate, in first-seen order, and leaves between one and eight |
| TreeFarmOrientations.Remember | src/days/day12/TreeFarm.java:226-235 | a key not seen before is appended and a seen one changes nothing, and the seen set stays the set of listed keys |
| TreeFarmOrientations.GenerateOrientations | src/days/day12/TreeFarm.java:205-240 | the result lists each rotation or mirror of the shape exactly once, between one and eight of them, in the order in which the eight candidates first produce them |
| TreeFarmOrientations.TurnKey | src/days/day12/TreeFarm.java:213-221 | one pass of the inner loop computes the candidate for its turn and flip |
| TreeFarmOrientations.Turn | src/days/day12/TreeFarm.java:210-237 | one pass of the outer loop advances the current shape by a quarter turn and lists the two new candidates unless already seen |
| TreeFarmOrientations.AddTurnKeys | src/days/day12/TreeFarm.java:212-236 | after a turn the output lists the candidates seen so far, once each, in first-seen order |
| TreeFarmOrientations.AddKey | src/days/day12/TreeFarm.java:213-235 | after a flip the output lists the candidates seen so far, once each, in first-seen order |
| TreeFarmPlacements.MaxX | src/days/day12/TreeFarm.java:279-284 | the largest column, at least 0, reached by some cell when positive |
| TreeFarmPlacements.MaxY | src/days/day12/TreeFarm.java:279-284 | the largest row, at least 0, reached by some cell when positive |
| TreeFarmPlacements.Extent | src/days/day12/TreeFarm.java:279-284 | the loop computes the largest column and row |
| TreeFarmPlacements.BlockMember | src/days/day12/TreeFarm.java:288-298 | the nested loop lists exactly the translations by offsets in range |
| TreeFarmPlacements.OrientationPlacementsMember | src/days/day12/TreeFarm.java:285-298 | an orientation's placements are exactly its translations that stay inside the region |
| TreeFarmPlacements.PlacementsMember | src/days/day12/TreeFarm.java:276-301 | a shape's placements are exactly the in-region translations of its orientations |
| TreeFarmPlacements.OversizedHasNone | src/days/day12/TreeFarm.java:285-287 | an orientation wider or taller than the region has no placement |
| TreeFarmPlacements.PlacementCells | src/days/day12/TreeFarm.java:290-295 | an in-range placement lists distinct cell indices inside the region |
| TreeFarmPlacements.PlaceAt | src/days/day12/TreeFarm.java:290-295 | the loop computes the translated cell indices x + y * W |
| TreeFarmPlacements.ComputePlacementsForShape | src/days/day12/TreeFarm.java:276-301 | the loop lists the placements of all orientations in order |
| TreeFarmPlacements.AddOrientationPlacements | src/days/day12/TreeFarm.java:279-298 | one orientation appends its placements |
| TreeFarmPacker.MarkFree | src/days/day12/TreeFarm.java:336-352 | after occupying p, the cells q are free exactly when they were free and share no cell with p |
| TreeFarmPacker.CanPackIff | src/days/day12/TreeFarm.java:312-327 | the recursive search succeeds exactly when the remaining pieces have pairwise disjoint placements on free cells |
| TreeFarmPacker.SearchFindsPacking | src/days/day12/TreeFarm.java:312-327 | a successful search yields such a packing |
| TreeFarmPacker.PackingFoundBySearch | src/days/day12/TreeFarm.java:312-327 | any such packing makes the search succeed |
| TreeFarmPacker.PackingPermutes | src/days/day12/TreeFarm.java:119-123 | packing does not depend on the order of the pieces, so sorting them keeps the answer |
| TreeFarmPacker.CanPlace | src/days/day12/TreeFarm.java:336-341 | the loop answers whether all the cells are free |
| TreeFarmPacker.SetPlace | src/days/day12/TreeFarm.java:350-352 | the loop sets exactly the listed cells to the value |
| TreeFarmPacker.MarkUnmark | src/days/day12/TreeFarm.java:320-323 | placing a piece on free cells and removing it again restores the grid |
| TreeFarmPacker.BacktrackPlace | src/days/day12/TreeFarm.java:312-327 | the backtracking answers whether the remaining pieces can be packed; on success the grid is the old grid with the cells of some packing of them marked, on failure it is as it was |
| TreeFarmPacker.ExtendPacking | src/days/day12/TreeFarm.java:317-321 | a free placement of the next piece followed by a packing of the rest is a packing, and marks the same cells |
| TreeFarmPacker.MarkAllCells | src/days/day12/TreeFarm.java:319-320 | after placing a packing, a cell is occupied exactly when it was or some placement covers it |
| TreeFarmRegions.MatchRegion | src/days/day12/TreeFarm.java:36 | the region pattern: width digits, 'x', height digits, ':', spaces, then the counts text, which holds no line terminator and starts with no space |
| TreeFarmRegions.HeaderRoundTrip | src/days/day12/TreeFarm.java:36 | a header written as "WxH:" and spaces before the counts is read back as the same width, height and counts |
| TreeFarmRegions.ParseCounts | src/days/day12/TreeFarm.java:86-91 | a successful count parse has one count per shape |
| TreeFarmRegions.CountsRoundTrip | src/days/day12/TreeFarm.java:87-91 | counts written in decimal are read back, padded with 0 or cut to the number of shapes |
| TreeFarmRegions.PiecesCount | src/days/day12/TreeFarm.java:102-105 | the piece list holds shape v exactly as often as its count, none for a negative count |
| TreeFarmRegions.PiecesCoverTotal | src/days/day12/TreeFarm.java:93-105 | the pieces' total area is at least the summed area, and equal when no count is negative |
| TreeFarmRegions.Pigeonhole | src/days/day12/TreeFarm.java:98-100 | disjoint placements inside a region of n cells cover at most n cells |
| TreeFarmRegions.FittingArea | src/days/day12/TreeFarm.java:93-100 | a fitting covers exactly the pieces' total area |
| TreeFarmRegions.AreaBound | src/days/day12/TreeFarm.java:98-100 | when the pieces fit, the summed area is at most W * H, so the area test never rejects a region that fits |
| TreeFarmRegions.NoPiecesFit | src/days/day12/TreeFarm.java:107-110 | with no piece to place the region fits |
| TreeFarmRegions.PackingIsFitting | src/days/day12/TreeFarm.java:112-124 | a packing of the listed placements on a blank grid is exactly a fitting of the pieces |
| TreeFarmRegions.ListsForPermutation | src/days/day12/TreeFarm.java:119-120 | the placement lists still cover the pieces after sorting them |
| TreeFarmRegions.SearchDecidesFit | src/days/day12/TreeFarm.java:112-124 | the search from a blank grid succeeds exactly when the pieces fit |

## Left out

- Reading the input file, the terminal menu, timing and the solver registry (src/core, src/ui, src/Main.java, src/InputReader.java) are not part of this model; each solver takes the input lines as a parameter.
- Java `int` and `long` arithmetic is modelled with unbounded integers: sums, products and areas that would wrap around in Java do not wrap here, and `Integer.parseInt`/`Long.parseLong` accept any length of digits instead of failing past the type's range.
- Factory's part two (`solveGold`, `solveMachineJoltage`) builds an integer linear program for the ojAlgo library and solves it in floating point; the library call and the doubles are outside the model.
- Factory.SolveMachineLights: the fewest-presses claim is made only for machines with fewer than 31 buttons whose target can be reached; Java's `1 << k` wraps at 32 bits, and for an unreachable target the code still returns a weight that the contract does not characterise. The Java search is in fact exact whenever fewer than 31 columns stay free after elimination, which can hold with more buttons; only `Factory.FewestReduced` is stated at that precision.
- Factory.FewestSolution: gated on fewer than 31 buttons (unknowns) rather than on fewer than 31 free columns, because the free-column count belongs to the reduced system built inside the method; `Factory.FewestReduced` states the result at that precision.
- Factory.FewestWeight: states optimality only for fewer than 31 free columns, for the same wrap-around reason.
- Factory.SolveSilver: the total is stated to be the sum of the fewest presses only when every machine is tractable in the sense above.
- Factory's row swap exchanges row references of a `boolean[][]`; the model swaps the rows element by element in an `array2`, which gives the same contents but not the same aliasing.
- Reactor.SolveGold: requires a ghost rank that orders every device reachable from "svr", so that no cycle can be reached from it; on such a cycle the Java recursion never ends, because a node's count is stored only after its recursive calls. Cycles that "svr" cannot reach are allowed, as in Java.
- Reactor's memo key is the string `node|fft|dac`; the model keys the memo by the tuple `(node, fft, dac)`, which identifies the same states.
- Reactor's path counts count parallel edges (an output listed twice) with multiplicity, as the Java loop does; that the counts are numbers of distinct simple paths is stated only for graphs in which no device lists an output twice.
- MovieTheater.SolveGold: is the largest area over the pairs that pass the code's own test (four corners inside or on the outline, no edge strictly crossing a trimmed side), not the largest rectangle contained in the polygon that the comment at src/days/day09/MovieTheater.java:157-158 promises; the test accepts rectangles that leave the polygon where a notch's edges end exactly on a side (`MovieTheater.AcceptedNotContained`). The model follows the code.
- PrintingDepartment.SolveSilver: requires a non-empty board whose rows are at least as long as the first; the Java code throws on an empty board and on a row shorter than the first.
- PrintingDepartment.SolveGold: has the same requirement on the board.
- Cafeteria.GoldCountsCovered: states that the answer counts the covered ids only when no range is backwards (start after end); the Java code accepts such ranges, and for them the model computes the same total as the merge loop without saying what it counts.
- Cafeteria's merge updates the range arrays in place, and those arrays are shared with the parsed list; the model merges values, so that sharing is not captured.
- Lobby: k is a natural number; with a negative k the Java trim loop would spin forever on an empty stack.
- Playground's circuit sizes come from a `HashMap` whose iteration order Java does not fix; the model uses first-seen order, which gives the same sorted sizes.
- Sorting.SortBy: is the stable sort Java's `List.sort` performs, by definition (each element is inserted after the ones with an equal key), and Playground's answers depend on that order: ties in distance decide which 1000 pairs Silver joins and which pair first connects everything in Gold. Its contract states sortedness and permutation; stability is carried by the definition, not by a separate lemma.
- Sorting.SortByKey: leaves the order of equal keys unstated, where Java's `Arrays.sort` on the `Integer[]` of pieces keeps them in input order. It orders TreeFarm's pieces, and the TreeFarm contracts state only whether a packing exists, which does not depend on that order.
- TreeFarm sorts each orientation's cells by the key `y * 1000 + x`; the model keeps the cells in row-major order, which is the same order only while x < 1000. Shapes in the puzzle are a few cells wide.
- Strings are sequences of Unicode scalar values, while Java's `length()`, `charAt()` and `substring()` count UTF-16 code units. Outside the Basic Multilingual Plane the two differ: a character such as U+1F600 is one element here and two in Java, so the widths and columns of TreeFarm shapes and TrashCompactor worksheets, and the bounds checks that decide which inputs fail, agree with Java only on text within that plane.
- Text.ParseInt: reads ASCII digits only; Java's `Integer.parseInt` and `Long.parseLong` also accept the other Unicode decimal digits (such as U+0663) through `Character.digit`, so on a line written with them the model fails where Java parses a number.
- Regular expressions are modelled only as far as the solvers use them: the region header `^(\d+)x(\d+):\s*(.*)$`, the shape header `^\d+:\s*$` and splitting on `\s+`, with Java's ASCII `\d` and `\s` and its line terminators for `.`.
