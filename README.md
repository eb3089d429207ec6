# Advent of Code solutions, modelled in Dafny

This project models the core of a Rust repository of Advent of Code solutions
(puzzle years 2015, 2016, 2023, 2024 and 2025) together with the small library
the solutions share, and proves properties of that model.

The shared library:

- `OrderedVec` is a vector kept sorted by binary-search insertion, with an
  append fast path, `remove` and `pop`.
- `PriorityQueue` is an `OrderedVec` of items ordered by priority alone.
- `a_star` is a best-first search with strict-improvement relaxation and
  path reconstruction.
- The small helpers are `Cardinal::turn`, `expand`, `peek` and `is_hex`.
- `StringIdMap` interns strings as dense ids.
- `Point2D` is a point, and its iterator walks a rectangle row by row.

Each puzzle day that is modelled becomes one module, named after its year and
day (`Year2016Day11` for `src/year_2016/day11.rs`). Two modules are shared:

- `Numerals` models Rust's `str::parse` and `to_string` for integers.
- `Pairs` models the triangular layout of the pair lists built in 2025
  days 8 and 9.

The modules follow the source's form:

- Code that mutates state in place is a class or a method with loop
  invariants, proved against a function of the inputs.
- Expression code is datatypes, functions and lemmas.
- Parsed input is passed in as values. Reading files, the network and
  printing are not modelled.

Where the code and its evident intent differ, the model keeps the code as
written and puts the corrected version beside it. Both are listed under
"Findings".

## Model

| member | source | states |
|---|---|---|
| OrderedVec.Cmp | src/util/ordered_vec.rs:59-60 | `cmp` is Greater exactly when the first key is not at most the second, Equal exactly on equal keys, Less otherwise |
| OrderedVec.CountNotAboveSplits | src/util/ordered_vec.rs:49-52 | on a sorted vector the items not above `x` are exactly a prefix, whose length is the count |
| OrderedVec.CountAtSplit | src/util/ordered_vec.rs:49-52 | any split point with items not above `x` before and above `x` after is that count |
| OrderedVec.BinarySearch | src/util/ordered_vec.rs:50 | the halving search returns `Ok` at the last equal item when one exists, otherwise `Err` at the number of items below `x` |
| OrderedVec.InsertAtSplitSorted | src/util/ordered_vec.rs:49-55 | placing an item between the items not above it and those above it keeps the vector sorted |
| OrderedVec.InsertSorted | src/util/ordered_vec.rs:49-55 | the items after `insert` are sorted and are the old items plus exactly the new one |
| OrderedVec.Pushed | src/util/ordered_vec.rs:57-70 | the items after `push` are sorted and are the old items plus exactly the new one |
| OrderedVec.OrderedVec.constructor | src/util/ordered_vec.rs:34-36 | a new vector is empty and sorted |
| OrderedVec.OrderedVec.FromOne | src/util/ordered_vec.rs:43-47 | `from_one` holds just the given item |
| OrderedVec.OrderedVec.Insert | src/util/ordered_vec.rs:49-55 | the item is spliced in at the binary-search index, which is returned; the vector stays sorted |
| OrderedVec.OrderedVec.Push | src/util/ordered_vec.rs:57-70 | an item not below the last is appended at the end index, otherwise inserted at the binary-search index; contents grow by exactly that item and stay sorted |
| OrderedVec.OrderedVec.Remove | src/util/ordered_vec.rs:79-81 | the item at the index is returned and removed, the rest keep their order |
| OrderedVec.OrderedVec.Pop | src/util/ordered_vec.rs:83-85 | the last item, which no other item is above, is removed and returned; `None` when empty |
| OrderedVec.OrderedVec.IsEmpty | src/util/ordered_vec.rs:91-93 | true exactly when there are no items |
| OrderedVec.OrderedVec.Len | src/util/ordered_vec.rs:95-97 | the number of items |
| OrderedVec.OrderedVec.AsSlice | src/util/ordered_vec.rs:99-101 | the items, in ascending order |
| OrderedVec.OrderingExampleSearches | src/util/ordered_vec.rs:108-115 | the searches the test performs land at index 0 and index 1 |
| OrderedVec.OrderingExample | src/util/ordered_vec.rs:108-115 | push 5, push 1, insert 2 leaves `[1, 2, 5]` |
| OrderedVec.OrderingExamplePushes | src/util/ordered_vec.rs:110-112 | the two pushes leave `[1, 5]` |
| OrderedVec.OrderingExamplePushOne | src/util/ordered_vec.rs:112 | pushing 1 onto `[5]` puts it in front |
| PriorityQueue.PriorityQueue.constructor | src/util/priority_queue.rs:57-61 | a new queue is empty |
| PriorityQueue.PriorityQueue.Push | src/util/priority_queue.rs:63-65 | the item is spliced in at the binary-search index of its priority; the queue stays sorted by priority |
| PriorityQueue.PriorityQueue.Pop | src/util/priority_queue.rs:67-69 | the last item, whose priority no remaining item exceeds, is removed and returned as a pair; `None` when empty |
| PriorityQueue.PriorityQueue.Len | src/util/priority_queue.rs:71-73 | the number of pending items |
| PriorityQueue.QueueExample | src/util/priority_queue.rs:80-94 | the test's pops come back as Hello, Name, Is, My, World, then `None`: of two equal priorities the earlier push pops first |
| PriorityQueue.QueueExampleFirstPushes | src/util/priority_queue.rs:82-86 | after pushing 5, 1 and 3 the first pop is ("Hello", 5) |
| PriorityQueue.QueueExampleLaterPushes | src/util/priority_queue.rs:87-88 | "Is", pushed second at 66, lands below "Name" |
| PriorityQueue.QueueExampleDrain | src/util/priority_queue.rs:89-93 | the remaining pops, highest priority first, end with `None` |
| AStar.PathCostSplit | src/util/a_star.rs:30-34 | the cost of a walk is its cost up to any node plus its cost from that node on |
| AStar.WalkSlice | src/util/a_star.rs:29 | a part of a walk through neighbours is a walk |
| AStar.SplitJoin | src/util/a_star.rs:49-56 | a sequence is its prefix joined to its suffix |
| AStar.LiveKept | src/util/a_star.rs:40-45 | a node waiting in the frontier at its recorded cost stays so while that cost is unchanged and no item is lost |
| AStar.LiveOnWalk | src/util/a_star.rs:25-47 | along a walk to `goal` from a node recorded at most at its walk cost, some later node is waiting in the frontier, recorded at most at its walk cost |
| AStar.AdmissibleAlong | src/util/a_star.rs:42 | an admissible heuristic is non-negative and at most the cost of the rest of a walk to `goal` |
| AStar.WaitingBelowWalk | src/util/a_star.rs:25-47 | while the search runs, some waiting item's priority is at most the cost of any walk from `start` to `goal` |
| AStar.PoppedGoalCheapest | src/util/a_star.rs:25-28 | when `goal` is popped with the least priority, its recorded cost is at most that of every walk from `start` to `goal` |
| AStar.SettledAfterExpand | src/util/a_star.rs:29-46 | after `current` is expanded, every recorded node is again waiting at its cost, or was expanded at its cost and is not `goal` |
| AStar.ChangedLive | src/util/a_star.rs:29-46 | across two relaxations, a node whose cost changed is waiting in the frontier at its new cost |
| AStar.Explore | src/util/a_star.rs:19-47 | the search loop keeps the links consistent; `Found` records `goal` at a cost no walk from `start` beats under an admissible heuristic; `Exhausted` leaves `goal` unrecorded and unreachable |
| AStar.FoundCheapest | src/util/a_star.rs:25-28 | popping `goal` first with an admissible heuristic means its recorded cost is the least walk cost |
| AStar.ExhaustedUnreachable | src/util/a_star.rs:25 | with nothing left waiting and every recorded node expanded, no walk from `start` reaches `goal` |
| AStar.ClosedWalk | src/util/a_star.rs:25-47 | once the frontier is empty and every recorded node was expanded, no walk from a recorded node reaches the goal |
| AStar.Relax | src/util/a_star.rs:30-45 | the cost and the link are written exactly when the neighbour has no recorded cost or the new cost is strictly lower; recorded costs never rise and other entries are untouched |
| AStar.RelaxKeepsConsistent | src/util/a_star.rs:40-45 | an improving relaxation keeps every link pointing to a neighbour with recorded cost plus step at most the node's, with a strictly decreasing (cost, write time) measure |
| AStar.Reconstruct | src/util/a_star.rs:49-56 | walking the links back from `goal` ends, and yields a walk through neighbours that ends at `goal`, starts at `start` when `goal` has a link and is `[goal]` otherwise, and costs at most the goal's recorded cost |
| AStar.RelaxEdge | src/util/a_star.rs:30-45 | one inner-loop pass: the neighbour is recorded at most at `current`'s cost plus the step, recorded costs never rise, every node whose cost changed is waiting in the frontier at that cost, and nothing waiting is lost |
| AStar.RelaxNeighbors | src/util/a_star.rs:29-46 | after the inner loop every neighbour of `current` is recorded at most at `current`'s cost plus the step, and every node whose cost changed is waiting in the frontier at that cost |
| AStar.Search | src/util/a_star.rs:8-57 | the result is a walk through neighbours ending at `goal` that starts at `start` when `goal` was popped, and then, under an admissible heuristic, costs no more than any walk from `start` to `goal`; when the frontier ran dry it is `[goal]` and no walk from `start` reaches `goal` |
| Cardinal.Clockwise | src/util/cardinal.rs:8-13 | each heading has a clockwise position below 4 |
| Cardinal.TurnTo | src/util/cardinal.rs:16-27 | a right turn moves one quarter clockwise, a left turn three quarters |
| Cardinal.ClockwiseInjective | src/util/cardinal.rs:8-13 | headings with the same clockwise position are equal |
| Cardinal.TurnBack | src/util/cardinal.rs:16-27 | turning one way then the other returns to the heading |
| Cardinal.FourTurns | src/util/cardinal.rs:16-27 | four turns the same way return to the heading |
| Expand.Expand | src/util/expand.rs:1-8 | afterwards the index is in range; a vector already long enough is unchanged, a shorter one keeps its prefix and is padded with defaults to length `index + 1` |
| Peek.Peek | src/util/peek.rs:5-13 | `None` exactly on an empty vector, otherwise the last element |
| Peek.PeekAfterPush | src/util/peek.rs:5-13 | after pushing `x`, peek gives `x` |
| IsHex.IsHexExactly | src/util/is_hex.rs:6-9 | as written the test accepts exactly `0`-`9`, `a`-`f`, `A` and `B` |
| IsHex.IsHexDigitExactly | src/util/is_hex.rs:6-9 | the intended test accepts exactly `0`-`9`, `a`-`f` and `A`-`F` |
| IsHex.WrittenTestRejectsUpperCToF | src/util/is_hex.rs:8 | the two tests differ exactly on `C` to `F` |
| Point.AddAssign | src/data/point.rs:11-16 | the point moves by exactly the vector's components |
| Point.AddAssignUndo | src/data/point.rs:11-16 | moving by a vector and then by its negation returns to the point |
| Point.RowPoints | src/data/point.rs:35-46 | a row from `x0` to `x1` holds `x1 - x0 + 1` points, none when `x0 > x1` |
| Point.RowPointsAt | src/data/point.rs:39-40 | the `i`-th point of a row is `i` steps right of its start |
| Point.RectPointsLength | src/data/point.rs:35-46 | the iterated rectangle holds width times height points |
| Point.RectPointsMembers | src/data/point.rs:35-46 | a point is yielded exactly when it lies inside the rectangle |
| Point.RectPointsDistinct | src/data/point.rs:35-46 | no point is yielded twice |
| Point.IterBounds | src/data/point.rs:50-81 | `iter_to` starts at the smaller and ends at the larger coordinate of each axis, whichever corner is the receiver |
| Point.IterBoundsSymmetric | src/data/point.rs:50-81 | swapping the two corners gives the same bounds |
| Point.NextSplit | src/data/point.rs:35-46 | the first pending point is the iterator's position |
| Point.NextInRow | src/data/point.rs:40-41 | stepping within a row leaves the rest of the row and the rows below |
| Point.NextWrap | src/data/point.rs:41-44 | stepping past the end of a row wraps to the first column of the next row |
| Point.Point2DIterator.IterTo | src/data/point.rs:50-81 | a new iterator will yield exactly the normalised rectangle, row by row |
| Point.Point2DIterator.Next | src/data/point.rs:35-46 | `next` yields the first remaining point and drops it, or `None` when nothing remains |
| Point.CollectRectangle | src/data/point.rs:35-81 | draining `iter_to` yields every point of the rectangle once, in row-major order |
| StringIdMap.StringIdMap.constructor | src/data/string_id_map.rs:3-7 | a new map has no ids and next id 0 |
| StringIdMap.StringIdMap.ToId | src/data/string_id_map.rs:10-20 | a known string keeps its id and nothing changes; a new one gets the next id, which advances; ids stay distinct and dense |
| StringIdMap.StringIdMap.Count | src/data/string_id_map.rs:22-24 | the count is the number of distinct strings seen |
| StringIdMap.InternExample | src/data/string_id_map.rs:10-24 | interning "a", "b", "a" gives 0, 1, 0 and a count of 2 |
| Numerals.ParseUnsigned | src/year_2016/day04.rs:82 | `str::parse` for an unsigned type succeeds only with a value no larger than the type's maximum |
| Numerals.UnsignedMeaning | src/year_2016/day04.rs:82 | an unsigned parse succeeds exactly on an optional `+` followed by at least one digit whose decimal value is in range, and yields that value |
| Numerals.UnsignedRoundTrip | src/year_2015/day23.rs:32 | an in-range number printed in decimal parses back to itself |
| Numerals.UnsignedRejects | src/year_2016/day01.rs:40 | an empty text, or one starting with a minus sign or any other non-digit but `+`, never parses as unsigned |
| Numerals.ParseSigned | src/year_2015/day16.rs:88 | `str::parse` for a signed type succeeds only with a value inside the type's range |
| Numerals.SignedRoundTrip | src/year_2015/day16.rs:88 | an in-range number printed in decimal, with a minus sign when negative, parses back to itself |
| Numerals.SignedRejects | src/year_2015/day13.rs:61 | an empty text, or one starting with a non-digit other than a sign, never parses as signed |
| Numerals.Decimal | src/year_2015/day10.rs:28 | `to_string` of a count is a non-empty string of decimal digits |
| Numerals.DecimalRoundTrip | src/year_2015/day10.rs:28 | reading the decimal digits of a count back gives the count |
| Numerals.DigitsValueMeaning | src/year_2024/day02.rs:47 | the digit reader accepts exactly the all-digit strings and gives their decimal value |
| Pairs.SlotOrder | src/year_2025/day09.rs:57-63 | pushing each new tile's pairs with every earlier tile, in order, puts consecutive pairs at consecutive positions with no gap |
| Pairs.SlotMonotone | src/year_2025/day09.rs:49-70 | the pairs of a later tile all come after those of an earlier one |
| Pairs.SlotEmpty | src/year_2025/day09.rs:49-70 | the pair list is empty exactly when there are fewer than two items |
| OrderedVec.CountNotAbove | src/util/ordered_vec.rs:49-55 | the count of items not above the new item is at most the length, and zero only when every item is above it |
| Year2015Day25.DiagonalIterator.constructor | src/year_2015/day25.rs:12-16 | the walk starts at row 1, column 1 |
| Year2015Day25.CellAt | src/year_2015/day25.rs:21-30 | every cell the walk reaches has a row and a column of at least 1 |
| Year2016Day01.Path | src/year_2016/day01.rs:56-63 | the blocks part 2 steps through, block by block, begin at the origin |
| Year2016Day01.VisitedNext | src/year_2016/day01.rs:60-63 | finishing one instruction's blocks is the same as starting the next instruction with none walked |
| Year2015Day18.Next | src/year_2015/day18.rs:56-90 | one generation of the grid keeps all 10000 lights |
| Year2015Day18.Steps | src/year_2015/day18.rs:56-90 | any number of generations keeps all 10000 lights |
| Year2023Day01.Bank | src/year_2023/day01.rs:63-84 | the observers built before the loop are the twenty words, in order, each at the start of its word |
| Year2023Day01.NewObservers | src/year_2023/day01.rs:63-84 | `main` builds one fresh observer per word, each mirroring its word at index zero |
| Year2023Day01.Carried | src/year_2023/day01.rs:99-106 | after a line, every observer keeps its word and value and stands at the index reading the line leaves it on |
| Year2023Day01.ObserveOne | src/year_2023/day01.rs:100-104 | one observer sees a character, moves to its new index, and adds its digit exactly when its word ends there |
| Year2023Day01.ObserveChar | src/year_2023/day01.rs:99-105 | every observer sees the character in turn, and the digits found are the fold of all their reports |
| Year2023Day01.MainLine | src/year_2023/day01.rs:88-111 | one line of the loop as written either fails with "No Digit" or adds its values and hands the carried observers to the next line |
| Year2023Day01.CalibrationSumsAsWritten | src/year_2023/day01.rs:63-112 | the loop as written computes the as-written sums, with observers never reset between lines |
| Year2023Day01.AsWrittenFirstPartAgrees | src/year_2023/day01.rs:88-98 | the observers' carried state never changes the first answer or whether the run fails; that happens exactly when some line has no numeric digit |
| Year2023Day01.BankFindsDigit | src/year_2023/day01.rs:99-111 | whatever the carried state, a line with a numeric digit makes some observer report, so the spelled reading never fails where the numeric one succeeds |
| Year2023Day01.IntendedFindsDigit | src/year_2023/day01.rs:99-111 | the intended spelled reading finds a digit on every line that has a numeric digit |
| Year2023Day01.NumericDigits | src/year_2023/day01.rs:88-90 | the numeric digits of a line are values below ten |
| Year2023Day01.SumsErrorSticks | src/year_2023/day01.rs:96-98 | once a line has no digit, the whole run is that error |
| Year2023Day01.LineWithoutDigit | src/year_2023/day01.rs:96-98 | a line with no numeric digit turns the sums up to and including it into an error |
| Year2023Day01.SumsStep | src/year_2023/day01.rs:96-106 | a line with digits adds ten times its first plus its last digit to the first sum, and its spelled-digit value to the second |
| Year2023Day02.ParseItems | src/year_2023/day02.rs:29-36 | the parsed items have one draw per item |
| Year2023Day02.Scores | src/year_2023/day02.rs:15-24 | one score per line |
| Year2023Day02.ScoresAt | src/year_2023/day02.rs:15-24 | the score of line n is the score of that line's game alone |
| Year2023Day02.SummaryFewest | src/year_2023/day02.rs:37-54 | the loop's summary holds exactly whether the game is possible and the fewest cubes of each colour |
| Year2023Day03.RunEndMeaning | src/year_2023/day03.rs:54-85 | a number's run of columns holds only digits and stops at the end of the row or at a non-digit |
| Year2023Day04.ParseNumbers | src/year_2023/day04.rs:38-56 | the parsed numbers have one entry per word |
| Year2023Day04.AllWon | src/year_2023/day04.rs:31-57 | every card gets its count of winning numbers |
| Year2023Day05.FirstCovering | src/year_2023/day05.rs:162-170 | the rule chosen for a value is one that covers it |
| Year2023Day05.ApplyRuleShape | src/year_2023/day05.rs:163-168 | one rule never fails on non-empty pieces, loses no length, and leaves non-empty pieces waiting |
| Year2023Day05.KeptAt | src/year_2023/day05.rs:163-168 | after one rule, a value it covers is no longer waiting and any other value waits as often as before |
| Year2023Day05.DoneAt | src/year_2023/day05.rs:163-168 | after one rule, the shifted image of a covered value is resolved as often as the value was waiting |
| Year2023Day05.WaitingAt | src/year_2023/day05.rs:159-170 | after the rules, a value of the range still waits exactly when no rule covers it |
| Year2023Day05.ResolvedAt | src/year_2023/day05.rs:159-170 | after the rules, the resolved pieces hold each value as often as values of the range are sent there by their first covering rule |
| Year2023Day05.ProdMapShape | src/year_2023/day05.rs:159-173 | `ProdMap::map` of a non-empty range never fails and keeps its length |
| Year2023Day05.ProdMapForward | src/year_2023/day05.rs:159-173 | every value of the range appears in the result at the place the map sends it |
| Year2023Day05.ProdMapBackward | src/year_2023/day05.rs:159-173 | every value of the result is where the map sends some value of the range |
| Year2023Day05.MapAllShape | src/year_2023/day05.rs:201-204 | mapping every piece never fails and keeps the total length |
| Year2023Day05.MapAllForward | src/year_2023/day05.rs:201-204 | each value held by the pieces is held, mapped, by the result |
| Year2023Day05.MapAllBackward | src/year_2023/day05.rs:201-204 | each value of the result comes from a value held by the pieces |
| Year2023Day05.MapThroughShape | src/year_2023/day05.rs:196-212 | the chain of maps never fails, keeps the total length and leaves no piece empty |
| Year2023Day05.MapThroughForward | src/year_2023/day05.rs:196-212 | each seed value reaches the end of the chain at its location |
| Year2023Day05.MapThroughBackward | src/year_2023/day05.rs:196-212 | each location at the end of the chain is the location of some seed value |
| Year2023Day05.ProdMaps.constructor | src/year_2023/day05.rs:175-180 | the map table starts empty |
| Year2023Day05.LowestOk | src/year_2023/day05.rs:251-268 | finding the lowest location never fails |
| Year2023Day05.LowestBelow | src/year_2023/day05.rs:251-268 | the lowest location is at most the location of every seed |
| Year2023Day05.LowestReached | src/year_2023/day05.rs:251-268 | the lowest location is the location of some seed |
| Year2023Day05.PairSpans | src/year_2023/day05.rs:260-262 | the second answer's seeds give one range per pair of numbers |
| Year2023Day06.WinCount | src/year_2023/day06.rs:24-37 | the winning holds among the first n are at most n |
| Year2023Day06.Joined | src/year_2023/day06.rs:79-84 | the numbers written side by side are all digits, and non-empty when there is a number |
| Year2023Day07.Rank | src/year_2023/day07.rs:9-25 | a card's position in the declared order is at most 13 |
| Year2023Day07.RankOfCard | src/year_2023/day07.rs:9-25 | different cards have different positions |
| Year2023Day07.CompareRanks | src/year_2023/day07.rs:120-129 | the derived comparison of cards is the order of their positions |
| Year2023Day07.Kind | src/year_2023/day07.rs:91-109 | a hand's type is the classification of its groups and its Jokers added to the largest group |
| Year2023Day07.TallyClassify | src/year_2023/day07.rs:91-109 | what `hand_type` computes from its tally classifies the hand as `Kind` |
| Year2023Day07.LargestBound | src/year_2023/day07.rs:96-97 | no card's count exceeds the largest count |
| Year2023Day07.LargestAttained | src/year_2023/day07.rs:96-97 | a positive largest count is some card's count |
| Year2023Day07.PresentCount | src/year_2023/day07.rs:96 | the cards present are as many as the groups |
| Year2024Day01.PushNumber | src/year_2024/day01.rs:20-21 | pushing a number keeps the list sorted and adds exactly that number to its contents |
| Year2024Day01.SimilarityNoRights | src/year_2024/day01.rs:30-49 | with no right numbers the similarity score is zero |
| Year2024Day04.Reverse | src/year_2024/day04.rs:30-41 | reading a line backwards keeps its length |
| Year2024Day04.SouthEast | src/year_2024/day04.rs:76-97 | the south-east diagonal from a cell runs until the right or the bottom edge, whichever comes first |
| Year2024Day04.SouthWest | src/year_2024/day04.rs:99-126 | the south-west diagonal from a cell runs until the left or the bottom edge, whichever comes first |
| Year2024Day04.Window | src/year_2024/day04.rs:19-42 | the counter's cache always holds four characters |
| Year2024Day06.LastCaret | src/year_2024/day06.rs:137-139 | the start found in a row is a column before the limit that holds `^` |
| Year2024Day06.ReadRow | src/year_2024/day06.rs:129-141 | one row of the load either stores every tile of the row and moves the guard's start to the row's last `^`, or stops at an unexpected character after only valid ones |
| Year2024Day06.AttemptsBound | src/year_2024/day06.rs:149-158 | the obstructions tried are at most the states the guard passes through |
| Year2024Day06.WalkExtends | src/year_2024/day06.rs:97-109 | the guard's walk extends one state at a time by its next state |
| Year2024Day06.AppendFresh | src/year_2024/day06.rs:97-109 | a walk that only adds states it has not seen never repeats a state |
| Year2025Day01.ClicksRight | src/year_2025/day01.rs:31-36 | turning right by a distance passes zero once per hundred reached from the start |
| Year2025Day01.ClicksLeft | src/year_2025/day01.rs:31-36 | turning left passes zero as often as turning right by the same distance from the mirrored dial |
| Year2025Day01.RunStep | src/year_2025/day01.rs:18-39 | each line either turns the dial by its delta or stops the run at its error, and an earlier error stays |
| Year2025Day02.Decimal | src/year_2025/day02.rs:37 | `to_string` of an id has at least one digit |
| Year2025Day02.Padded | src/year_2025/day02.rs:37-52 | the low k digits of a number are k characters |
| Year2025Day02.PaddedInjective | src/year_2025/day02.rs:37-52 | numbers below 10^k with the same k digits are equal, so comparing digit blocks compares numbers |
| Year2025Day02.PaddedSplit | src/year_2025/day02.rs:45-49 | a number's digits split into the digits above and below any position |
| Year2025Day02.NumDigitsRange | src/year_2025/day02.rs:37-38 | a positive number's digit count d puts it between 10^(d-1) and 10^d |
| Year2025Day02.Repeat | src/year_2025/day02.rs:39-53 | a block written m times is m times as long |
| Year2025Day02.SumUpToBelow | src/year_2025/day02.rs:82-89 | over one range, the sum of invalid ids never exceeds `main`'s patterned sum, which never exceeds the sum of repeated blocks |
| Year2025Day02.PassesBelow | src/year_2025/day02.rs:82-89 | an invalid id is added to the patterned sum, and every id that sum adds is a repeated block |
| Year2025Day02.NotThreeDigits | src/year_2025/day02.rs:37-39 | an id below 100 or from 1000 on does not have three digits |
| Year2025Day02.SumUpToAgrees | src/year_2025/day02.rs:82-89 | over a range with no three-digit id, `main`'s patterned sum is the sum of repeated blocks |
| Year2025Day03.Values | src/year_2025/day03.rs:26-36 | a bank's digits are the values of its characters, in order |
| Year2025Day03.Advance | src/year_2025/day03.rs:35-46 | one more battery keeps the two kept digits equal to the best pair and the largest digit so far |
| Year2025Day03.BestUpToLargest | src/year_2025/day03.rs:35-48 | the reference joltage is no smaller than any pair of batteries in order |
| Year2025Day04.CountRow | src/year_2025/day04.rs:16-34 | the column loop counts distinct rolls around the location, and short of four it has seen every one up to this row |
| Year2025Day04.FindRow | src/year_2025/day04.rs:36-47 | the column loop lists, in increasing order, exactly the removable rolls up to this row |
| Year2025Day04.LoadRow | src/year_2025/day04.rs:53-67 | reading one line adds exactly its rolls, and the far corner tracks the widest line so far |
| Year2025Day05.Splice | src/year_2025/day05.rs:34-58 | merging into range i sets its high end and drops the ranges it swallowed |
| Year2025Day05.SpliceAt | src/year_2025/day05.rs:34-58 | the merge keeps the ranges before i and after the swallowed ones in place |
| Year2025Day05.MergeHigh | src/year_2025/day05.rs:34-58 | the merged range ends no lower than before and below every range kept after it |
| Year2025Day05.MergeWithin | src/year_2025/day05.rs:34-58 | every range the merge drops lies inside the merged range |
| Year2025Day05.Widen | src/year_2025/day05.rs:104-132 | widening range i to hold the new range adds exactly the new ids |
| Year2025Day05.ReadyAfter | src/year_2025/day05.rs:104-132 | a widened range placed at its sorted position leaves the list ready for `merge_adjacent` |
| Year2025Day05.InsertBeforeValid | src/year_2025/day05.rs:84-88 | a range inserted before the first range that starts above it keeps the list sorted and disjoint |
| Year2025Day07.Resize | src/year_2025/day07.rs:17-22 | `resize` extends a row with zeros and keeps its entries |
| Year2025Day07.Step | src/year_2025/day07.rs:23-44 | each character moves its beam count straight on, or splits it to both sides |
| Year2025Day07.Done | src/year_2025/day07.rs:15-48 | after the whole line the row is the next row |
| Year2025Day07.SplitPrefix | src/year_2025/day07.rs:32-44 | over the first k columns the next row holds the old timelines plus one extra copy per split, less what a split at the edge sends past column k |
| Year2025Day08.InsertAscending | src/year_2025/day08.rs:66 | inserting a distance keeps the list ascending and adds exactly that distance |
| Year2025Day08.InsertDescending | src/year_2025/day08.rs:130-134 | inserting a size keeps the list descending and adds exactly that size |
| Year2025Day08.Lengths | src/year_2025/day08.rs:130-132 | the sizes of the circuits, one per circuit |
| Year2025Day08.MergeOwner | src/year_2025/day08.rs:109-123 | after a merge the boxes of the second circuit belong to the first, and every other box keeps its circuit |
| Year2025Day08.MergeMembers | src/year_2025/day08.rs:109-123 | after a merge a box is listed in a circuit exactly when the map sends it there |
| Year2025Day08.MergeNoDup | src/year_2025/day08.rs:111-113 | appending one circuit to another lists no box twice |
| Year2025Day08.ValidPop | src/year_2025/day08.rs:82-88 | a reused circuit is an empty one, taken off the reusable list |
| Year2025Day08.ValidGrow | src/year_2025/day08.rs:82-88 | a new circuit is empty and no box belongs to it yet |
| Year2025Day08.SpareEmpty | src/year_2025/day08.rs:82-88 | a circuit with boxes is never on the reusable list |
| Year2025Day08.Unchanged | src/year_2025/day08.rs:109-123 | a connection inside one circuit links nothing new |
| Year2025Day08.Apart | src/year_2025/day08.rs:121-122 | two boxes in different circuits mean the boxes are not all linked |
| Year2025Day08.Reached | src/year_2025/day08.rs:73-129 | the thousandth connection is made exactly when there are a thousand distances and the first 999 do not link every box |
| Year2025Day08.MeasuredComplete | src/year_2025/day08.rs:55-66 | the sorted distances list every pair of boxes once |
| Year2025Day08.PairsAppend | src/year_2025/day08.rs:56-63 | each new point's distances to the earlier points extend the pair layout by one point |
| Year2015Day01.FloorIsBalance | src/year_2015/day01.rs:13-18 | the final floor is the count of `(` minus the count of `)` |
| Year2015Day01.Floors | src/year_2015/day01.rs:11-22 | the final floor, and the 1-based position of the first character taking the floor below 0, every earlier prefix staying at or above 0 (0 when none does) |
| Year2015Day02.Min | src/year_2015/day02.rs:32-40 | the result is one of the three arguments and at most each of them |
| Year2015Day02.MinSymmetric | src/year_2015/day02.rs:32-40 | the least of three does not depend on their order |
| Year2015Day02.PaperOrientation | src/year_2015/day02.rs:52-64 | turning a present around needs the same paper |
| Year2015Day02.RibbonOrientation | src/year_2015/day02.rs:57-65 | turning a present around needs the same ribbon |
| Year2015Day02.Totals | src/year_2015/day02.rs:45-66 | the loop skips blank lines and sums every present's paper (surface plus smallest side) and ribbon (volume plus smallest perimeter) |
| Year2015Day02.Examples | src/year_2015/day02.rs:52-65 | a 2x3x4 present needs 58 paper and 34 ribbon, a 1x1x10 one 43 and 14 |
| Year2015Day03.Visited1Members | src/year_2015/day03.rs:26-39 | a house is visited in year 1 exactly when Santa stands on it after some prefix of the moves |
| Year2015Day03.CountHouses | src/year_2015/day03.rs:14-46 | the two counts are the numbers of distinct houses visited by Santa alone, and by the two santas taking moves by index parity, origin included |
| Year2015Day06.ActionFacts | src/year_2015/day06.rs:28-45 | toggling twice restores a switch and adds 4 to a dial; turning off never goes below 0 and undoes turning on |
| Year2015Day06.ApplyRow | src/year_2015/day06.rs:26-46 | one row of an instruction acts on exactly its cells of both grids and leaves every other cell unchanged |
| Year2015Day06.Apply | src/year_2015/day06.rs:26-46 | an instruction acts on exactly the cells of its rectangle, whichever corner comes first, on both grids |
| Year2015Day06.Solve | src/year_2015/day06.rs:14-51 | from dark grids, each cell has seen exactly the instructions covering it, in order; the answers count the lit switches and sum the dials |
| Year2015Day06.CountLit | src/year_2015/day06.rs:49 | the count of `true` entries, at most the number of cells |
| Year2015Day07.ParseU16 | src/year_2015/day07.rs:31-34 | a number parses exactly when it is a non-empty digit string whose value fits in `u16` |
| Year2015Day07.IntoOperand | src/year_2015/day07.rs:27-37 | an operand is a wire name or a `u16` number, and neither both nor none |
| Year2015Day07.ConstRoundTrip | src/year_2015/day07.rs:27-37 | every 16-bit constant written in decimal reads back as itself |
| Year2015Day07.Gate | src/year_2015/day07.rs:63-82 | a binary gate fails exactly on a shift by 16 or more, which overflows in Rust |
| Year2015Day07.ExecuteOperand | src/year_2015/day07.rs:39-51 | a constant is its value, a cached wire its cached signal, any other wire is evaluated; the result is the operand's signal and the memo table only grows |
| Year2015Day07.ExecuteGate | src/year_2015/day07.rs:61-84 | evaluating a gate's inputs left before right gives the gate's signal, keeping the memo table consistent |
| Year2015Day07.ExecuteBinary | src/year_2015/day07.rs:63-82 | a binary gate's output is the gate applied to both inputs' signals |
| Year2015Day07.ExecuteRight | src/year_2015/day07.rs:64-66 | the right input is evaluated after the left and the gate applied |
| Year2015Day07.GrowsTransitive | src/year_2015/day07.rs:41 | memo tables that only grow compose |
| Year2015Day07.CacheInsert | src/year_2015/day07.rs:85 | recording a wire's true signal keeps the memo table consistent |
| Year2015Day07.Execute | src/year_2015/day07.rs:53-87 | evaluating a wire yields its signal in the acyclic circuit and records it in the memo table |
| Year2015Day07.BothParts | src/year_2015/day07.rs:124-128 | the first answer is wire `a`'s signal, the second is `a`'s signal with `b` held at the first answer; an error in either is returned |
| Year2015Day07.SeedingTrueValues | src/year_2015/day07.rs:126-128 | holding wires at the signals they would carry anyway changes no signal |
| Year2015Day07.SeedingOperand | src/year_2015/day07.rs:126-128 | the same for an operand |
| Year2015Day08.ScanLine | src/year_2015/day08.rs:15-49 | the character loop of one line equals the scan specification: quotes only first or last, escapes `\"`, `\\` and `\x` with two characters the hex test accepts, each error case reported |
| Year2015Day08.Totals | src/year_2015/day08.rs:12-50 | both differences summed over the lines with `is_hex` as written; the first failing line's error is returned, and success means every line scans |
| Year2015Day08.Escape | src/year_2015/day08.rs:19-29 | a literal is two characters longer than its body, which adds one character per quote or backslash |
| Year2015Day08.EscapeBody | src/year_2015/day08.rs:26-29 | escaping adds one character per quote or backslash |
| Year2015Day08.ScanBody | src/year_2015/day08.rs:24-29 | scanning an escaped body adds one to the memory difference and two to the re-escape difference per escape |
| Year2015Day08.ScanBodyCons | src/year_2015/day08.rs:24-29 | the first escaped character of a body followed by the rest adds up to the counts of the whole body |
| Year2015Day08.Window | src/year_2015/day08.rs:24-29 | a window spelling `head + rest` spells `head` and then `rest` |
| Year2015Day08.ScanEscapeChar | src/year_2015/day08.rs:24-29 | one escaped quote or backslash counts (1, 2), any other character nothing |
| Year2015Day08.QuoteAtEnd | src/year_2015/day08.rs:19-22 | a quote as first or last character counts (1, 2) |
| Year2015Day08.BetweenQuotes | src/year_2015/day08.rs:18-22 | the two enclosing quotes add (2, 4) to what the inside counts |
| Year2015Day08.EscapedLiteral | src/year_2015/day08.rs:14-49 | the literal of any string scans to its escapes plus 2 saved in memory and twice that to re-escape, with either hex test |
| Year2015Day08.LiteralShape | src/year_2015/day08.rs:15 | a literal is its escaped body between two quotes |
| Year2015Day08.ScanByte | src/year_2015/day08.rs:30-41 | a `\xHH` literal scans to (5, 5) when the test accepts both digits and fails on the first rejected one |
| Year2015Day08.ByteEscapeCounts | src/year_2015/day08.rs:30-41 | with the intended test every byte escape counts, in either case of hex digit |
| Year2015Day08.UpperEscapeRejected | src/year_2015/day08.rs:32-35 | as written, `\xCF` in upper case is rejected while the same byte in lower case counts |
| Year2015Day09.NewRoute | src/year_2015/day09.rs:21-27 | a route stores its two ends smaller first |
| Year2015Day09.RouteSymmetric | src/year_2015/day09.rs:21-27 | the order of the ends does not matter, and two routes are equal exactly when they join the same locations |
| Year2015Day09.Connect | src/year_2015/day09.rs:52-59 | the connection list of `x` gains `y` at its end, being created when absent; other lists are unchanged |
| Year2015Day09.BuildGraph | src/year_2015/day09.rs:39-68 | reading succeeds exactly when no two lines name the same pair; the ids then number exactly the names of the lines, one to one from 0, every line's route is recorded with that line's length, every recorded route is some line's, and each appears in the connection lists of both its ends |
| Year2015Day09.ReadLines | src/year_2015/day09.rs:42-68 | the reading loop stops only on a line repeating an earlier line's pair; otherwise every line is read into the graph and the ids are all names of the lines |
| Year2015Day09.ReadAll | src/year_2015/day09.rs:42-68 | once every line is read, the ids number exactly the lines' names one to one, and the recorded routes are exactly the lines' routes with their lengths |
| Year2015Day09.ReadLine | src/year_2015/day09.rs:42-68 | one line either is reported as repeating an earlier line's pair or extends the graph consistently |
| Year2015Day09.InternPair | src/year_2015/day09.rs:30-34 | both names of the line get ids below the next id, earlier ids are kept, and every id is still the id of a name read |
| Year2015Day09.WithinSmaller | src/year_2015/day09.rs:30-34 | fewer names are still all among the names of the lines read |
| Year2015Day09.WithinStep | src/year_2015/day09.rs:30-34 | interning the two names of the next line keeps the ids among the names of the lines read |
| Year2015Day09.WithinNames | src/year_2015/day09.rs:30-34 | names that are within the lines read are a subset of their names |
| Year2015Day09.NamesIn | src/year_2015/day09.rs:46-48 | when both names of every line have ids, every name of the lines has an id |
| Year2015Day09.Interned | src/year_2015/day09.rs:46-48 | handing out new ids keeps the ids and the routes of the lines already read |
| Year2015Day09.LinesWider | src/year_2015/day09.rs:42-68 | the lines read stay read when the id map grows without changing their routes |
| Year2015Day09.RecordedLine | src/year_2015/day09.rs:49 | recording a new line's route with its length extends the lines read by one |
| Year2015Day09.ConnectBothAt | src/year_2015/day09.rs:52-67 | after connecting both ends, every connection listed is a location below the count, lists its partner back, and is a recorded route |
| Year2015Day09.ConnectLinks | src/year_2015/day09.rs:49-67 | recording a route and connecting both of its ends keeps every recorded route in both ends' connection lists |
| Year2015Day09.RecordRoute | src/year_2015/day09.rs:49-67 | a route already recorded is a duplicate of an earlier line, otherwise it is recorded and both ends connected |
| Year2015Day09.GraphWider | src/year_2015/day09.rs:39-41 | a consistent graph stays consistent as more ids are handed out |
| Year2015Day09.ConnectBoth | src/year_2015/day09.rs:52-67 | connecting both ends and recording the length keeps the graph consistent |
| Year2015Day09.Recorded | src/year_2015/day09.rs:49-67 | recording a new line's route keeps the reading invariant |
| Year2015Day09.SameRouteSamePair | src/year_2015/day09.rs:30-34 | with distinct ids, equal routes come from lines naming the same pair |
| Year2015Day09.NewPair | src/year_2015/day09.rs:49-51 | a route not yet recorded repeats no earlier line's pair |
| Year2015Day09.ExtendEntry | src/year_2015/day09.rs:91-99 | extending a partial route by an unvisited neighbour gives a partial route whose length adds the edge |
| Year2015Day09.Extend | src/year_2015/day09.rs:87-101 | every path pushed repeats no location, walks recorded routes and carries its length, the stack below is kept, and every unvisited connection of the path's end is pushed as the path extended by it |
| Year2015Day09.Starts | src/year_2015/day09.rs:69-72 | the stack starts with one single-location route per location, in order |
| Year2015Day09.CoveredStart | src/year_2015/day09.rs:69-74 | at the start every route through all locations is pending on the stack entry of its first location |
| Year2015Day09.CoveredStep | src/year_2015/day09.rs:75-101 | popping an entry, counting it when complete and pushing its extensions keeps every route through all locations either within the lengths found or pending on the stack |
| Year2015Day09.Visit | src/year_2015/day09.rs:75-101 | one turn of the loop keeps the stack entries valid, the lengths found those of real routes, and every route through all locations counted or pending |
| Year2015Day09.SearchDone | src/year_2015/day09.rs:75-102 | with the stack empty, every route through all locations lies between the shortest and the longest found |
| Year2015Day09.Search | src/year_2015/day09.rs:69-102 | the shortest and longest values, when set, are lengths of routes visiting every location exactly once, the shortest is at most the longest, and every such route's length lies between them |
| Year2015Day09.Solve | src/year_2015/day09.rs:37-106 | a repeated pair is an error; otherwise the graph is what the lines say, and the two answers are lengths of real routes through every named location with every such route lying between them |
| Year2015Day10.RunEnd | src/year_2015/day10.rs:25-27 | the inner loop stops at the first index past the run: everything it skipped is the run's character, and it stops at the end or at a different character |
| Year2015Day10.SkipRun | src/year_2015/day10.rs:22-27 | advancing from a run's start ends exactly at the run's end |
| Year2015Day10.LookAndSay | src/year_2015/day10.rs:17-33 | one step emits, for each maximal run in order, its length in decimal followed by its character |
| Year2015Day10.SayLength | src/year_2015/day10.rs:28-31 | each run emits at least two characters, so the output is empty exactly when the input is |
| Year2015Day10.UnsaySay | src/year_2015/day10.rs:22-32 | over characters that are not digits, reading the output back as count/character pairs gives back the input, so no information is lost |
| Year2015Day10.UnsayStep | src/year_2015/day10.rs:22-32 | the first emitted run reads back as exactly the run it came from |
| Year2015Day10.RunGlue | src/year_2015/day10.rs:22-27 | a run followed by the rest of the input from its end is the input from its start: the runs partition the sequence |
| Year2015Day10.UnsayRun | src/year_2015/day10.rs:28-31 | a decimal count followed by a non-digit reads back as that many copies of the character |
| Year2015Day10.Lengths | src/year_2015/day10.rs:14-40 | the two lengths recorded are those after exactly 40 and 50 steps |
| Year2015Day11.IncludesStraight | src/year_2015/day11.rs:9-18 | true exactly when three consecutive characters ascend by one |
| Year2015Day11.ExcludesConfusingLetters | src/year_2015/day11.rs:20-30 | true exactly when no character is 'i', 'o' or 'l' |
| Year2015Day11.IncludesPairs | src/year_2015/day11.rs:32-45 | the greedy left-to-right pairing answers true exactly when two non-overlapping doubled letters exist |
| Year2015Day11.OnlyOverlapping | src/year_2015/day11.rs:32-45 | when the only doubled letters start at the first pair or overlap it, there are not two separate pairs; this is why the greedy scan may stop at the first pair |
| Year2015Day11.IsGoodPassword | src/year_2015/day11.rs:47-49 | true exactly when all three checks hold |
| Year2015Day11.Increment | src/year_2015/day11.rs:51-66 | the successor keeps the password's length |
| Year2015Day11.IncrementPassword | src/year_2015/day11.rs:51-66 | the in-place loop fails exactly when the successor function fails, and otherwise leaves the successor in the array |
| Year2015Day11.CarryStep | src/year_2015/day11.rs:53-62 | a 'z' becomes 'a' and the carry moves one place left; a letter from 'a' to 'y' advances by one and ends the carry |
| Year2015Day11.IncrementIsSuccessor | src/year_2015/day11.rs:51-66 | on lower-case passwords the increment never fails, stays lower-case, and adds one to the password read as a base-26 number, wrapping to all 'a' after all 'z' |
| Year2015Day11.Value26Bound | src/year_2015/day11.rs:51-66 | a password of n letters read in base 26 is below 26^n, so the wrap-around is the only overflow |
| Year2015Day11.Advance | src/year_2015/day11.rs:74-75 | one increment gives the next successor, and the goodness answer is exact |
| Year2015Day11.ProgressPick | src/year_2015/day11.rs:75-77 | a good successor is recorded after those already found, at its position |
| Year2015Day11.ProgressSkip | src/year_2015/day11.rs:75-77 | a successor that is not good is passed over and the search state still holds |
| Year2015Day11.Found | src/year_2015/day11.rs:73-78 | when two passwords have been collected they are good, at increasing positions, and every other successor before the second is not good |
| Year2015Day11.NextGoodPasswords | src/year_2015/day11.rs:69-81 | on success the two answers are the first and second good successors of the input, in order, with no good successor skipped |
| Year2015Day12.AsI64 | src/year_2015/day12.rs:31-34 | a number counts exactly when it is an integer within the signed 64-bit range, and then as its own value |
| Year2015Day12.SumTree | src/year_2015/day12.rs:14-61 | the recursive walk with its accumulator loops computes `sum_numbers` for every document |
| Year2015Day12.LeftIsTotal | src/year_2015/day12.rs:29-61 | the first answer is the sum of every 64-bit integer in the document, at any depth |
| Year2015Day12.ItemsLeft | src/year_2015/day12.rs:35 | the first answer of an array prefix is the total of its numbers |
| Year2015Day12.EntriesLeft | src/year_2015/day12.rs:36-53 | the first answer of an object prefix is the total of its numbers |
| Year2015Day12.TotalAppend | src/year_2015/day12.rs:19-25 | the sum over a concatenation is the sum of the sums, so the accumulator loops may add item by item |
| Year2015Day12.NoRedSameSums | src/year_2015/day12.rs:29-61 | a document with no object holding "red" has equal answers |
| Year2015Day12.ItemsNoRed | src/year_2015/day12.rs:35 | an array prefix with no red object below it has equal answers |
| Year2015Day12.EntriesNoRed | src/year_2015/day12.rs:36-57 | an object prefix with no red value and no red object below it has equal answers and has not seen "red" |
| Year2015Day12.RedObjectIgnored | src/year_2015/day12.rs:42-56 | an object with "red" among its values contributes 0 to the second answer, wherever "red" stands among its entries |
| Year2015Day12.RedSticks | src/year_2015/day12.rs:43-45 | once a "red" value has been seen the flag stays set for the rest of the object |
| Year2015Day12.RedInArrayIgnored | src/year_2015/day12.rs:35-59 | the string "red" inside an array, not an object, changes neither answer |
| Year2015Day12.SameItemPrefix | src/year_2015/day12.rs:35 | the sums over an array prefix depend only on that prefix |
| Year2015Day13.PairHappiness | src/year_2015/day13.rs:12-14 | a pair missing from the chart in both directions contributes 0 |
| Year2015Day13.PairSymmetric | src/year_2015/day13.rs:12-14 | a pair's happiness does not depend on which guest is named first |
| Year2015Day13.AllSequences | src/year_2015/day13.rs:20-31 | the nested insertion loops build exactly `Arrangements(count)` |
| Year2015Day13.ExpandHas | src/year_2015/day13.rs:23-29 | every sequence with the new guest inserted at any position is in the next round |
| Year2015Day13.ExpandFrom | src/year_2015/day13.rs:23-29 | every sequence of the next round is an earlier one with the new guest inserted somewhere |
| Year2015Day13.ArrangementsAreSeatings | src/year_2015/day13.rs:20-31 | every sequence built seats each guest exactly once |
| Year2015Day13.SeatingsAreArrangements | src/year_2015/day13.rs:20-31 | every seating of the guests is among the sequences built |
| Year2015Day13.SmallerSeating | src/year_2015/day13.rs:24-27 | a seating of n guests is a seating of n-1 with the last guest inserted, which is why the loops miss none |
| Year2015Day13.ArrangementsCount | src/year_2015/day13.rs:20-31 | n! sequences are built |
| Year2015Day13.ExpandSize | src/year_2015/day13.rs:23-29 | a round multiplies the count by one more than the current length |
| Year2015Day13.ArrangementLengths | src/year_2015/day13.rs:20-31 | every sequence built has length n |
| Year2015Day13.SeatingHappiness | src/year_2015/day13.rs:34-41 | the loop sums every neighbouring pair of the round table, the last guest next to the first |
| Year2015Day13.FindBestHappiness | src/year_2015/day13.rs:16-47 | the result is at least every seating's happiness and is the happiness of some seating, or `i64::MIN` when no seating beats it |
| Year2015Day14.DistanceIsSimulated | src/year_2015/day14.rs:18-29 | the closed form, with full cycles counted first, equals flying the race out second by second |
| Year2015Day14.DistanceStep | src/year_2015/day14.rs:18-29 | one more second adds the flying speed exactly when that second falls in a flying phase |
| Year2015Day14.DistanceMonotone | src/year_2015/day14.rs:18-29 | a reindeer never goes backwards |
| Year2015Day14.FirstFlight | src/year_2015/day14.rs:22-28 | until its first flight ends a reindeer has flown at full speed for every second |
| Year2015Day14.BestDistance | src/year_2015/day14.rs:36-55 | the result is the best distance after the race, starting from `u64::MIN` = 0 |
| Year2015Day14.Distances | src/year_2015/day14.rs:60-62 | the list of each reindeer's distance at that second |
| Year2015Day14.LeadersStep | src/year_2015/day14.rs:61-69 | a greater distance restarts the leader list, an equal one joins it, a smaller one leaves it alone |
| Year2015Day14.LeaderIndices | src/year_2015/day14.rs:59-69 | the list holds every reindeer tied for the lead at that second, each once, in increasing order, and is never empty |
| Year2015Day14.LeadersAreLeading | src/year_2015/day14.rs:59-69 | after all reindeer, the list holds exactly the leaders |
| Year2015Day14.AwardPoints | src/year_2015/day14.rs:70-72 | each leader gets one point and nobody else's points change |
| Year2015Day14.PointsRace | src/year_2015/day14.rs:57-73 | each reindeer ends with the number of seconds, from 1 up to the race length, in which it led |
| Year2015Day14.Furthest | src/year_2015/day14.rs:59-69 | some reindeer is furthest at every second |
| Year2015Day14.TotalStep | src/year_2015/day14.rs:58-73 | each second hands out one point per leader |
| Year2015Day14.CountsLeader | src/year_2015/day14.rs:59-69 | a second with a leader hands out at least one point |
| Year2015Day14.PointsEverySecond | src/year_2015/day14.rs:57-73 | at least as many points as seconds are handed out in all, since someone always leads |
| Year2015Day14.ZeroPoints | src/year_2015/day14.rs:57 | before the first second nobody has points |
| Year2015Day14.MaxPoints | src/year_2015/day14.rs:74 | the winner's points are at least everyone's and are someone's |
| Year2015Day16.Set | src/year_2015/day16.rs:89-100 | recording a stat changes that stat only, and keeps the aunt's number |
| Year2015Day16.CompareKnown | src/year_2015/day16.rs:24-34 | against a known reading, `eq`, `gt` and `lt` accept an unknown count, and otherwise a count equal to, above or below the reading |
| Year2015Day16.CompareUnknownReading | src/year_2015/day16.rs:28-34 | with Rust's `None < Some` order, an unknown reading is passed by `gt` always and by `lt` only when the count is unknown too |
| Year2015Day16.SimpleIsEveryStat | src/year_2015/day16.rs:36-47 | the simple match holds exactly when all ten things pass `eq` |
| Year2015Day16.ComplexIsEveryRule | src/year_2015/day16.rs:49-60 | the complex match holds exactly when cats and trees pass `gt`, goldfish and pomeranians pass `lt`, and the other six pass `eq` |
| Year2015Day16.UnknownMatchesBoth | src/year_2015/day16.rs:24-60 | an aunt with no remembered counts matches under both rules |
| Year2015Day16.ApplyStat | src/year_2015/day16.rs:84-101 | a stat fails exactly when it is not a name and a count, when the count is not an `i32`, or when the name is not one of the ten; otherwise it sets that thing's count |
| Year2015Day16.ReadAunt | src/year_2015/day16.rs:81-102 | reading a line starts from an aunt of whom nothing is known and applies the stats in order, stopping at the first error |
| Year2015Day16.ErrSticks | src/year_2015/day16.rs:83-101 | an error in a prefix of the stats is the line's error |
| Year2015Day16.FindAunts | src/year_2015/day16.rs:63-109 | the reported numbers are exactly those of the aunts matching the ticker tape under each rule |
| Year2015Day17.Step | src/year_2015/day17.rs:19-27 | one container at most doubles the number of combinations |
| Year2015Day17.StepFills | src/year_2015/day17.rs:19-27 | the inner loop puts, for each combination in order, the one taking the container (when it stays within 150 litres) before the one leaving it |
| Year2015Day17.AllFills | src/year_2015/day17.rs:13-28 | the container loop, from the single empty combination, builds the combinations of all the containers |
| Year2015Day17.StepFrom | src/year_2015/day17.rs:20-26 | every new combination is an old one, or an old one with the container added and within 150 litres |
| Year2015Day17.StepHas | src/year_2015/day17.rs:20-26 | every old combination survives, and so does its extension by the container when that stays within 150 litres |
| Year2015Day17.FillsAreChoices | src/year_2015/day17.rs:13-28 | every combination kept holds at most 150 litres and is the count and volume of some choice of containers |
| Year2015Day17.ChoicesAreFills | src/year_2015/day17.rs:13-28 | every choice of containers holding at most 150 litres is among the combinations, with its count and volume |
| Year2015Day17.StepRecords | src/year_2015/day17.rs:19-27 | if the combinations record the count and volume of a list of choices, then after one more container they record those of the choices each taking it (within 150 litres) and leaving it, in the loop's order |
| Year2015Day17.FillsRecordMasks | src/year_2015/day17.rs:13-28 | entry by entry, the combinations are the count and volume of the choices in `Masks` |
| Year2015Day17.MaskStepMembers | src/year_2015/day17.rs:19-27 | a choice is produced by one more container exactly when its earlier part was a choice before and, if it takes the container, stays within 150 litres |
| Year2015Day17.MaskStepDistinct | src/year_2015/day17.rs:19-27 | one more container turns distinct choices into distinct choices |
| Year2015Day17.MasksDistinct | src/year_2015/day17.rs:13-28 | no choice appears twice behind the combinations |
| Year2015Day17.MasksAreChoices | src/year_2015/day17.rs:13-28 | the choices behind the combinations are exactly the choices of containers holding at most 150 litres |
| Year2015Day17.MaskChoice | src/year_2015/day17.rs:19-27 | one more container keeps the choices behind the combinations exactly those within 150 litres |
| Year2015Day17.FillsAreEachChoiceOnce | src/year_2015/day17.rs:13-28 | the combinations are, entry by entry, the count and volume of a list holding every choice of containers within 150 litres exactly once, so each (count, volume) occurs as often as there are such choices |
| Year2015Day17.FillsCount | src/year_2015/day17.rs:13-28 | there are at most 2^n combinations after n containers |
| Year2015Day17.Exact | src/year_2015/day17.rs:29 | the combinations kept are exactly those of 150 litres |
| Year2015Day17.RetainExact | src/year_2015/day17.rs:29 | `retain` keeps exactly the 150-litre combinations, in order |
| Year2015Day17.Fewest | src/year_2015/day17.rs:31-40 | the fewest containers is at most every combination's count and is one of them, or `u32::MAX` when there is none |
| Year2015Day17.NoneBelow | src/year_2015/day17.rs:33-40 | a count below every combination's occurs nowhere |
| Year2015Day17.TallyStep | src/year_2015/day17.rs:33-40 | a smaller count replaces the minimum and a count equal to it adds one occurrence |
| Year2015Day17.FewestContainers | src/year_2015/day17.rs:31-40 | the tally loop finds the fewest containers and how many combinations use exactly that many |
| Year2015Day18.Index | src/year_2015/day18.rs:63-74 | an in-bounds point has a row-major position inside the 10000 lights |
| Year2015Day18.LitPeers | src/year_2015/day18.rs:62-71 | at most one lit neighbour per offset examined; offsets leaving the grid count nothing |
| Year2015Day18.Neighbours | src/year_2015/day18.rs:62-71 | a light has at most eight lit neighbours |
| Year2015Day18.NextAt | src/year_2015/day18.rs:72-86 | each light of the next grid follows the life rule at its own point, the stuck grid's corners being lit |
| Year2015Day18.PeerCounts | src/year_2015/day18.rs:60-71 | the offset loop counts the lit neighbours of the point in both grids |
| Year2015Day18.StepRow | src/year_2015/day18.rs:59-87 | one row of points writes each of its lights' next states in both new grids and keeps the rows already done |
| Year2015Day18.Step | src/year_2015/day18.rs:56-90 | one step computes each grid's next generation from the old grids only, into fresh grids |
| Year2015Day18.Loaded | src/year_2015/day18.rs:40-49 | the grid read from the characters has all 10000 lights |
| Year2015Day18.WithCorners | src/year_2015/day18.rs:50-54 | lighting the corners keeps the grid's size |
| Year2015Day18.Load | src/year_2015/day18.rs:38-55 | reading lights '#' and darkens everything else, and the stuck copy additionally has its four corners lit |
| Year2015Day18.CountLit | src/year_2015/day18.rs:91-100 | the count of lit lights in a grid |
| Year2015Day18.Animate | src/year_2015/day18.rs:56-100 | the answers are the numbers of lit lights after the given steps, freely and with the corners stuck |
| Year2015Day18.StuckCornersStayLit | src/year_2015/day18.rs:80-81 | with the corners stuck they are lit after any number of steps |
| Year2015Day18.CornersOfWithCorners | src/year_2015/day18.rs:50-54 | the stuck grid starts with its corners lit |
| Year2015Day18.DarkStaysDark | src/year_2015/day18.rs:75-79 | a dark grid stays dark under the free rule |
| Year2015Day18.NextOfDark | src/year_2015/day18.rs:75-79 | one step of a dark grid is dark |
| Year2015Day18.NoLitPeers | src/year_2015/day18.rs:62-71 | in a dark grid no point has a lit neighbour |
| Year2015Day19.LastText | src/year_2015/day19.rs:25-26 | the medicine is "" or one of the non-rule lines |
| Year2015Day19.ReadInput | src/year_2015/day19.rs:16-28 | reading fails exactly when two rules produce the same string; otherwise the reverse map sends each rule's product to its source, and holds nothing else, and the medicine is the last non-empty non-rule line, or "" when there is none |
| Year2015Day19.MatchSound | src/year_2015/day19.rs:31 | every index `match_indices` reports is an occurrence of the pattern |
| Year2015Day19.MatchComplete | src/year_2015/day19.rs:31 | every occurrence is reported or overlaps an occurrence reported before it |
| Year2015Day19.OverlapSkipped | src/year_2015/day19.rs:31 | overlapping occurrences are not all reported: "aa" in "aaa" is found at 0 only |
| Year2015Day19.PossibilitiesAreSteps | src/year_2015/day19.rs:29-36 | every molecule counted is one forward replacement away from the medicine |
| Year2015Day19.FindPossibilities | src/year_2015/day19.rs:29-36 | the loops collect exactly the medicine with one reported occurrence of a rule's source replaced by its product |
| Year2015Day19.ReverseIsStep | src/year_2015/day19.rs:48-51 | undoing one replacement in a molecule gives a molecule one forward replacement before it |
| Year2015Day19.ReachesBack | src/year_2015/day19.rs:48-53 | one replacement before a molecule that reaches the medicine in n steps reaches it in n+1 |
| Year2015Day19.UndoAt | src/year_2015/day19.rs:49-53 | each undone occurrence is queued with one more step, and every queued molecule still reaches the medicine in its step count |
| Year2015Day19.PushAncestors | src/year_2015/day19.rs:49-54 | after a rule's occurrences are undone the queue's molecules all still reach the medicine in their step counts |
| Year2015Day19.PushSound | src/year_2015/day19.rs:53 | pushing a molecule that reaches the medicine keeps the queue sound |
| Year2015Day19.StepsToElectron | src/year_2015/day19.rs:38-60 | a step count reported for "e" is one by which "e" really reaches the medicine through forward replacements |
| Year2015Day20.ISqrt | src/year_2015/day20.rs:11 | the integer square root is the largest r with r*r at most the number |
| Year2015Day20.SumOfDivisors | src/year_2015/day20.rs:10-24 | counting candidates down from the square root and adding each divisor and its distinct cofactor gives the sum of all divisors |
| Year2015Day20.PresentCount | src/year_2015/day20.rs:26-28 | a house gets ten presents per divisor of its number |
| Year2015Day20.PairsAreSigma | src/year_2015/day20.rs:10-24 | pairing each divisor up to the square root with its cofactor, once when they are equal, counts every divisor exactly once |
| Year2015Day20.PairsSoFar | src/year_2015/day20.rs:13-22 | after the candidates 1 to m, the pairs plus the divisors still unpaired in the middle give all divisors |
| Year2015Day20.PairStep | src/year_2015/day20.rs:14-20 | the next candidate pairs off exactly the divisors leaving the middle window |
| Year2015Day20.CofactorInWindow | src/year_2015/day20.rs:16-19 | the cofactor is added exactly when the candidate divides the number and differs from its cofactor |
| Year2015Day20.DivSumSplit | src/year_2015/day20.rs:10-24 | the divisor sum over adjacent windows adds up |
| Year2015Day20.DivSumOnly | src/year_2015/day20.rs:16-19 | a window whose only divisor is x sums to x |
| Year2015Day20.SigmaTableLow | src/year_2015/day20.rs:47-79 | the test table's values for 1 to 10 |
| Year2015Day20.SigmaTableMiddle | src/year_2015/day20.rs:47-79 | the test table's values for 11 to 15 |
| Year2015Day20.SigmaTableHigh | src/year_2015/day20.rs:47-79 | the test table's values for 16 to 20 |
| Year2015Day20.SigmaAtLeast | src/year_2015/day20.rs:33-38 | a house gets at least ten times its number, so the search always ends by the house numbered like the target |
| Year2015Day20.LowestHouse | src/year_2015/day20.rs:31-40 | the house found is the lowest getting at least the target; there is none exactly when the target is 0 |
| Year2015Day21.FromItems | src/year_2015/day21.rs:26-43 | the creature's armor and damage, and the cost, are the items' totals, at the given health |
| Year2015Day21.TotalsAppend | src/year_2015/day21.rs:30-34 | buying one more batch of items adds its armor, cost and damage to the totals |
| Year2015Day21.Hit | src/year_2015/day21.rs:51-55 | a blow deals the damage beyond the armor, and at least 1 |
| Year2015Day21.Fight | src/year_2015/day21.rs:46-71 | the turn loop, player first, answers whether the player wins |
| Year2015Day21.HitsToKillIsCeiling | src/year_2015/day21.rs:56-59 | the blows needed to kill are the health divided by the blow, rounded up |
| Year2015Day21.WinsIffFewerHits | src/year_2015/day21.rs:46-71 | the player wins exactly when killing the boss takes no more blows than the boss needs, since the player strikes first |
| Year2015Day21.HitsToKillMonotone | src/year_2015/day21.rs:56-69 | more health never needs fewer blows |
| Year2015Day21.HitsToKillAntitone | src/year_2015/day21.rs:56-69 | a stronger blow never needs more blows |
| Year2015Day21.MoreDamageStillWins | src/year_2015/day21.rs:46-71 | more damage never turns a win into a loss |
| Year2015Day21.MoreArmorStillWins | src/year_2015/day21.rs:46-71 | more armor never turns a win into a loss |
| Year2015Day21.RingChoices | src/year_2015/day21.rs:179-219 | there are 22 ring choices: none, one of six, or one of the 15 pairs |
| Year2015Day21.PairFirst | src/year_2015/day21.rs:205 | the first ring of a pair is one of the first five |
| Year2015Day21.PairSecond | src/year_2015/day21.rs:206 | the second ring of a pair comes after the first |
| Year2015Day21.PairsCovered | src/year_2015/day21.rs:205-206 | every pair of distinct rings is tried once |
| Year2015Day21.WeaponLoadouts | src/year_2015/day21.rs:178-265 | a weapon is tried with 6 armor choices and 22 ring choices each |
| Year2015Day21.Loadouts | src/year_2015/day21.rs:178-266 | 660 loadouts are tried |
| Year2015Day21.LoadoutAt | src/year_2015/day21.rs:178-266 | each combination of weapon, optional armor and ring choice is tried, at a known position |
| Year2015Day21.LoadoutShape | src/year_2015/day21.rs:178-266 | every loadout holds one weapon first, then at most one armor and at most two rings |
| Year2015Day21.BestStep | src/year_2015/day21.rs:182-190 | a winning loadout can only lower the best cost, to its own cost |
| Year2015Day21.WorstStep | src/year_2015/day21.rs:182-190 | a losing loadout can only raise the worst cost, to its own cost |
| Year2015Day21.ScanLoadouts | src/year_2015/day21.rs:176-266 | the best cost is the cheapest win and the worst the dearest loss among the loadouts tried, `u32::MAX` and 0 when there is none |
| Year2015Day21.BestAndWorst | src/year_2015/day21.rs:176-268 | the answers are the cheapest winning and dearest losing loadouts of the shop |
| Year2015Day22.NewGame | src/year_2015/day22.rs:30-43 | a new game has every effect off and its timers in bounds |
| Year2015Day22.StartTurn | src/year_2015/day22.rs:45-60 | each active effect ticks once: the shield protects, poison deals 3 saturating, recharge adds 101 mana; nothing else changes |
| Year2015Day22.EndTurn | src/year_2015/day22.rs:62-66 | only the shield's protection ends |
| Year2015Day22.Saturating | src/year_2015/day22.rs:81 | `saturating_sub` is 0 exactly when the subtrahend is at least the value, and the difference otherwise |
| Year2015Day22.UseMana | src/year_2015/day22.rs:68-77 | spending succeeds exactly when the player holds the mana, which moves from the purse to the history and nothing else changes |
| Year2015Day22.DamageBoss | src/year_2015/day22.rs:79-83 | the boss loses the damage, saturating at 0, and nothing else changes |
| Year2015Day22.BossBlow | src/year_2015/day22.rs:85-95 | under the shield the blow is 7 less but at least 1; otherwise it is the boss's damage |
| Year2015Day22.DamagePlayer | src/year_2015/day22.rs:85-98 | the player loses the boss's blow, saturating at 0, and nothing else changes |
| Year2015Day22.DrainHealth | src/year_2015/day22.rs:100-104 | the hard mode's drain is taken from the player's health, saturating, and nothing else changes |
| Year2015Day22.HealPlayer | src/year_2015/day22.rs:106-110 | healing adds to the player's health only |
| Year2015Day22.Cost | src/year_2015/day22.rs:112-148 | every spell costs at least 53 mana |
| Year2015Day22.Cast | src/year_2015/day22.rs:112-148 | a cast succeeds exactly when its effect is off and the mana suffices; it spends the cost, starts the effect's timer, and missile and drain deal 4 and 2, drain healing 2 |
| Year2015Day22.RoundSpends | src/year_2015/day22.rs:156-205 | a round that goes on spends at least 53 more mana, and a win costs at least what was already spent |
| Year2015Day22.PlaySpends | src/year_2015/day22.rs:156-205 | after n rounds at least 53n mana has been spent, so the queue cannot grow forever below a fixed best |
| Year2015Day22.RoundKeepsTimers | src/year_2015/day22.rs:156-205 | the effect timers stay within their bounds through a round |
| Year2015Day22.PlaySpellKeepsTimers | src/year_2015/day22.rs:180-204 | the player's cast and the boss's turn keep the timers in bounds |
| Year2015Day22.PlayKeepsTimers | src/year_2015/day22.rs:156-205 | the timers stay in bounds through any sequence of rounds |
| Year2015Day22.PlayOn | src/year_2015/day22.rs:180-204 | playing one more spell from a reached game is one more round |
| Year2015Day22.PushReachable | src/year_2015/day22.rs:204 | every queued game is reachable from the first by some sequence of spells; the pushed game is queued and every game queued before still is |
| Year2015Day22.RoundWin | src/year_2015/day22.rs:166-197 | a win found in a round from a reachable game is a real winning sequence of spells |
| Year2015Day22.RoundContinue | src/year_2015/day22.rs:199-204 | a game that goes on from a reachable game is reachable |
| Year2015Day22.TrySpell | src/year_2015/day22.rs:180-205 | one cast keeps the queue reachable and the best mana sound, never raises the best, keeps every queued game, and deals with the round: its win is no cheaper than the best and the game it goes on to is queued |
| Year2015Day22.FirstRound | src/year_2015/day22.rs:156-205 | playing a sequence of spells is its first round followed by the rest from the game that round leads to |
| Year2015Day22.WinSplits | src/year_2015/day22.rs:156-205 | a win from a game costs at least the mana that game has spent, and its first round either wins it or continues to a game it can still be won from |
| Year2015Day22.Expand | src/year_2015/day22.rs:172-206 | after the five casts, every round from the popped game is dealt with: a win is no cheaper than the best, and a game that goes on is queued |
| Year2015Day22.AllSpells | src/year_2015/day22.rs:172-179 | the five casts tried are all the spells there are |
| Year2015Day22.Resume | src/year_2015/day22.rs:156-206 | after a popped game is dealt with, every win cheaper than the best still runs through some queued game |
| Year2015Day22.PoppedReachable | src/year_2015/day22.rs:156 | the popped game and the games left are reachable |
| Year2015Day22.Popped | src/year_2015/day22.rs:156 | after a pop, every win cheaper than the best runs through a game left or the popped one |
| Year2015Day22.WaitingPop | src/year_2015/day22.rs:156 | a win reachable from some queued game is reachable from a game left or from the popped one |
| Year2015Day22.Consider | src/year_2015/day22.rs:157-206 | the body of the loop for a popped game keeps the queue reachable, the best sound and never raised, and every cheaper win pending |
| Year2015Day22.Turn | src/year_2015/day22.rs:156-206 | one turn of the loop keeps every win cheaper than the best pending in the queue, and reports an empty queue |
| Year2015Day22.FindBestManaPath | src/year_2015/day22.rs:151-209 | the answer is `u32::MAX` or the mana of some real winning sequence of spells, and once the queue has run empty no winning sequence of spells costs less |
| Year2015Day23.RegisterFromArg | src/year_2015/day23.rs:15-21 | only "a" and "b" name registers, A and B respectively |
| Year2015Day23.OffsetFromArg | src/year_2015/day23.rs:31-38 | an offset reads exactly when its magnitude is a `usize` and its sign is "+" or "-", forward for "+" |
| Year2015Day23.OffsetRoundTrip | src/year_2015/day23.rs:31-38 | an offset written as sign and decimal magnitude reads back as itself |
| Year2015Day23.Update | src/year_2015/day23.rs:91-114 | an arithmetic instruction sets its register, leaves the other alone and moves to the next instruction |
| Year2015Day23.Target | src/year_2015/day23.rs:115-166 | a forward jump adds the offset; a backward one subtracts it, or ends the program when it would pass the start |
| Year2015Day23.Execute | src/year_2015/day23.rs:85-171 | the loop ends, within the fuel, exactly when the step-by-step run does, with the same registers |
| Year2015Day23.RunHalts | src/year_2015/day23.rs:89 | a finished run has its instruction pointer outside the program |
| Year2015Day23.RunMoreFuel | src/year_2015/day23.rs:89-169 | more fuel never changes a finished run |
| Year2015Day23.JumpIfOneIsNotJumpIfOdd | src/year_2015/day23.rs:147-166 | `jio` jumps on the value 1 only: 3 falls through, 1 jumps |
| Year2015Day23.ExampleProgram | src/year_2015/day23.rs:85-171 | the puzzle's four-instruction example leaves 2 in `a` |
| Year2015Day24.CombinationsSound | src/year_2015/day24.rs:14 | every combination of size k has k elements and is a selection of the weights in order |
| Year2015Day24.CombinationsComplete | src/year_2015/day24.rs:14 | every selection of k weights is among the combinations of size k |
| Year2015Day24.PowersetFromIsSelections | src/year_2015/day24.rs:14 | the powerset from size k holds exactly the selections of at least k weights |
| Year2015Day24.PowersetIsSelections | src/year_2015/day24.rs:14 | `powerset` yields exactly the selections of the weights |
| Year2015Day24.PowersetFromSorted | src/year_2015/day24.rs:14 | the powerset from size k never yields a smaller group after a larger one |
| Year2015Day24.PowersetSorted | src/year_2015/day24.rs:14-19 | group sizes never fall along `powerset`, so the break at a longer group is safe |
| Year2015Day24.SubseqShorter | src/year_2015/day24.rs:14 | a selection is no longer than what it is selected from |
| Year2015Day24.BestSkip | src/year_2015/day24.rs:20 | a group missing the target leaves the best alone |
| Year2015Day24.BestFirst | src/year_2015/day24.rs:22-24 | the first group reaching the target sets the best size and product |
| Year2015Day24.BestImprove | src/year_2015/day24.rs:22-23 | a later group of the best size reaching the target can only lower the product |
| Year2015Day24.BestAtBreak | src/year_2015/day24.rs:15-19 | breaking at the first longer group loses nothing: every later group is longer |
| Year2015Day24.BestAtEnd | src/year_2015/day24.rs:28 | the best's product, or `u64::MAX` when no group reached the target, is the answer |
| Year2015Day24.BestQe | src/year_2015/day24.rs:13-28 | over groups given smallest first, the answer is the least product among the smallest groups reaching the target, or `u64::MAX` when none does |
| Year2015Day24.CalculateBestQe | src/year_2015/day24.rs:11-29 | the target is the total divided, rounding down, by the compartments, and the answer is the best over the powerset of the weights |
| Year2015Day24.AnswerIsBestSelection | src/year_2015/day24.rs:11-29 | if a selection reaches the target, the answer is the product of some selection reaching it with no more presents, and at most the product of any selection as small |
| Year2015Day25.NextCell | src/year_2015/day25.rs:21-30 | the walk moves up and right along a diagonal, and from the top row down to the start of the next diagonal |
| Year2015Day25.NextCellIsNextOrdinal | src/year_2015/day25.rs:21-30 | the walk visits the cells in diagonal order, one ordinal after another |
| Year2015Day25.DiagonalIterator.Next | src/year_2015/day25.rs:21-30 | `next` yields the current cell and moves to the cell with the next ordinal |
| Year2015Day25.Code | src/year_2015/day25.rs:42-47 | every code after the first is below the modulus |
| Year2015Day25.CodeBounded | src/year_2015/day25.rs:46-47 | every code is below the modulus and its product with the multiplier fits in a `u64` |
| Year2015Day25.OrdinalFirst | src/year_2015/day25.rs:12-15 | only (1, 1) is the first cell |
| Year2015Day25.OrdinalInjective | src/year_2015/day25.rs:21-30 | different cells have different ordinals, so the target is met once |
| Year2015Day25.CellAtOrdinal | src/year_2015/day25.rs:43-51 | the n-th cell of the walk has ordinal n |
| Year2015Day25.CodeAtAsWritten | src/year_2015/day25.rs:42-51 | for every target but (1, 1), the loop as written stops with the code of the target's ordinal |
| Year2015Day25.AsWrittenMissesFirstCell | src/year_2015/day25.rs:43-51 | no cell compared by the loop as written is (1, 1), since the first was taken before it |
| Year2015Day25.CodeAt | src/year_2015/day25.rs:42-51 | comparing each cell before advancing gives the code of every target, (1, 1) included |
| Year2016Day01.Forward | src/year_2016/day01.rs:12-22 | a move of n blocks in any heading covers exactly n blocks of taxicab distance |
| Year2016Day01.ForwardAdds | src/year_2016/day01.rs:12-22 | walking a blocks and then b more the same way is walking a+b |
| Year2016Day01.ParseToken | src/year_2016/day01.rs:33-41 | a token reads exactly when it starts with `R` or `L` and the rest is a `u16`, giving the turn and the distance |
| Year2016Day01.TokenRoundTrip | src/year_2016/day01.rs:33-41 | an instruction written as its letter and decimal distance reads back as itself |
| Year2016Day01.ParseTokens | src/year_2016/day01.rs:27-42 | empty tokens are skipped; reading succeeds exactly when every other token reads, giving their instructions in order |
| Year2016Day01.FinalPosition | src/year_2016/day01.rs:44-49 | part 1's loop ends where the instructions lead from the origin, facing North first |
| Year2016Day01.UnitSteps | src/year_2016/day01.rs:62-63 | walking m blocks one at a time passes the points 1 to m blocks ahead |
| Year2016Day01.PathEndsAtWalk | src/year_2016/day01.rs:44-74 | the block-by-block path ends where part 1's walk ends |
| Year2016Day01.PathPrefix | src/year_2016/day01.rs:60-74 | later instructions only extend the path |
| Year2016Day01.VisitedPrefix | src/year_2016/day01.rs:60-74 | the blocks visited so far are a prefix of the whole path |
| Year2016Day01.VisitedStep | src/year_2016/day01.rs:62-63 | each unit step adds the next block of the current instruction |
| Year2016Day01.VisitedAll | src/year_2016/day01.rs:60-74 | after the last instruction every block of the path has been visited |
| Year2016Day01.NoRepeatGrow | src/year_2016/day01.rs:64-72 | a block not yet in the set keeps the visited blocks free of repeats |
| Year2016Day01.RepeatFound | src/year_2016/day01.rs:64-69 | the first block found in the set is the path's first block reached twice |
| Year2016Day01.WalkBlocks | src/year_2016/day01.rs:61-73 | one instruction's blocks either stop at the first block already seen, which is the path's first repeat, or all join the set with no repeat |
| Year2016Day01.FirstDuplicate | src/year_2016/day01.rs:56-74 | part 2 reports the first block of the path reached twice, and nothing exactly when no block repeats |
| Year2016Day02.SquareTableIsGeometry | src/year_2016/day02.rs:23-61 | the 3x3 table accepts exactly a direction and a key 1-9, and each entry moves one place in its direction when that stays on the keypad and stays put otherwise |
| Year2016Day02.DiamondTableIsGeometry | src/year_2016/day02.rs:62-116 | the diamond table accepts exactly a direction and a key 1-D, and each entry moves one place in its direction when that stays on the diamond and stays put otherwise |
| Year2016Day02.DiamondTop | src/year_2016/day02.rs:62-116 | the diamond table's entries for keys 1-4 follow the geometry |
| Year2016Day02.DiamondMiddle | src/year_2016/day02.rs:62-116 | the diamond table's entries for keys 5-9 follow the geometry |
| Year2016Day02.DiamondBottom | src/year_2016/day02.rs:62-116 | the diamond table's entries for keys A-D follow the geometry |
| Year2016Day02.MoveStaysOnPad | src/year_2016/day02.rs:23-116 | a move is refused exactly for a non-direction or a key off the keypad, and otherwise lands on the keypad |
| Year2016Day02.FollowStaysOnPad | src/year_2016/day02.rs:22-117 | from a key on the keypad, a line is followed exactly when all its characters are directions, and ends on the keypad |
| Year2016Day02.CodeOnPad | src/year_2016/day02.rs:21-120 | a code has one key of the keypad per line |
| Year2016Day02.FollowLine | src/year_2016/day02.rs:22-117 | one line's moves on both keypads at once succeed exactly when both succeed, with both final keys |
| Year2016Day02.BathroomCodes | src/year_2016/day02.rs:17-120 | both codes start from 5 and each line starts where the last ended; reading fails exactly when either keypad refuses a move |
| Year2016Day02.NoLaterRecovery | src/year_2016/day02.rs:60 | a refused pair ends the line's walk for good |
| Year2016Day02.CodeStopsAt | src/year_2016/day02.rs:60 | a line that fails fails the whole code |
| Year2016Day02.CodeNoneSticks | src/year_2016/day02.rs:60 | a failure in earlier lines is a failure of the whole code |
| Year2016Day02.HexDigit | src/year_2016/day02.rs:11 | a key is written as one upper-case hexadecimal digit, and reading that digit back gives the key |
| Year2016Day02.FormatCode | src/year_2016/day02.rs:10-12 | one upper-case hexadecimal digit per key, reading back as the key |
| Year2016Day03.Sum3 | src/year_2016/day03.rs:11-18 | the sum of a triple is its three sides added |
| Year2016Day03.TriangleForms | src/year_2016/day03.rs:10-20 | "the two smaller sides exceed the largest", the test as coded, is the same as "every side is shorter than the other two together" |
| Year2016Day03.GoodTriangle | src/year_2016/day03.rs:10-20 | one pass keeping the sum and the largest side answers true exactly for a triangle |
| Year2016Day03.SetColumn | src/year_2016/day03.rs:40-42 | a matching line overwrites column `num % 3` of the window with its three numbers and leaves the other columns alone |
| Year2016Day03.WindowAfter | src/year_2016/day03.rs:28-43 | after a line the window changes only in that line's column, and only when the line matched |
| Year2016Day03.CountRows | src/year_2016/day03.rs:46-50 | the window loop counts the rows that are triangles |
| Year2016Day03.CountTriangles | src/year_2016/day03.rs:25-53 | the counts are the matching lines that are triangles, and the triangle rows of the window after each matching line with index 2 modulo 3 |
| Year2016Day03.WindowCellInRange | src/year_2016/day03.rs:27-42 | the window holds only numbers read from the lines, so its sums do not overflow |
| Year2016Day03.AlignedGroup | src/year_2016/day03.rs:40-50 | when the three lines of a group all match, the window rows are the group's columns read top to bottom |
| Year2016Day03.UnmatchedLineKeepsColumn | src/year_2016/day03.rs:28-52 | a line the pattern does not match still takes its place in the cycle, and its column keeps an earlier group's numbers |
| Year2016Day04.ChecksumUnique | src/year_2016/day04.rs:11-30 | the checksum a name should carry is unique: at most five letters, by count descending then letter ascending, none left out that ranks above one taken |
| Year2016Day04.FirstDifference | src/year_2016/day04.rs:27-29 | against any other list of distinct letters of the name, as long as the checksum and agreeing with it up to some position, the checksum's letter there ranks first; applied both ways it gives uniqueness |
| Year2016Day04.Insert | src/year_2016/day04.rs:28 | inserting a letter into the sorted list adds exactly that letter and lengthens the list by one |
| Year2016Day04.InsertRanked | src/year_2016/day04.rs:28 | inserting a new letter in its place keeps the list in the checksum's order |
| Year2016Day04.CountChars | src/year_2016/day04.rs:12-21 | the count map has every letter of the name but `-` as a key, each with the number of times it occurs |
| Year2016Day04.CountAbsent | src/year_2016/day04.rs:12-21 | a letter that does not occur has count zero |
| Year2016Day04.CalculateChecksum | src/year_2016/day04.rs:11-30 | the result is the name's checksum in the sense of ChecksumUnique |
| Year2016Day04.SortLetters | src/year_2016/day04.rs:23-28 | the sorted list holds every counted letter once, in the checksum's order |
| Year2016Day04.TopFive | src/year_2016/day04.rs:29 | the first five letters of the sorted list, or all of them when fewer, are the checksum |
| Year2016Day04.ShiftTimesClosed | src/year_2016/day04.rs:32-71 | after n steps a letter has moved n places round the alphabet, `-` has become a space when n >= 1, and every other character is unchanged |
| Year2016Day04.LetterStep | src/year_2016/day04.rs:38-64 | one step of the table moves a letter one place round the alphabet, `z` to `a` |
| Year2016Day04.DecodeChar | src/year_2016/day04.rs:35-68 | the inner loop applies the table to a character `sector` times |
| Year2016Day04.Decoded | src/year_2016/day04.rs:32-71 | the decoded name has the same length and each character is the original's shifted `sector` times |
| Year2016Day04.Decode | src/year_2016/day04.rs:32-71 | `decode` returns each character of the name shifted `sector` times |
| Year2016Day04.DecodeSectorZero | src/year_2016/day04.rs:36 | sector 0 leaves the name as it is |
| Year2016Day04.DecodeWholeTurn | src/year_2016/day04.rs:32-71 | a sector that is a positive multiple of 26 only turns dashes into spaces |
| Year2016Day04.WholeTurn | src/year_2016/day04.rs:36-66 | 26k steps bring a letter back to itself and a dash to a space |
| Year2016Day04.ModTurn | src/year_2016/day04.rs:36-66 | adding whole turns does not change a letter's offset |
| Year2016Day04.SumRealSectors | src/year_2016/day04.rs:76-90 | the loop adds the sectors of the rooms whose checksum is right and stops with the parse error at the first such room whose sector does not fit in a u32 |
| Year2016Day04.RealSectorSumStops | src/year_2016/day04.rs:82 | once a parse error occurs, later rooms do not change the result |
| Year2016Day06.ColumnCountBound | src/year_2016/day06.rs:14-26 | a character's count at a position never exceeds the number of lines |
| Year2016Day06.ColumnCountPositive | src/year_2016/day06.rs:17-21 | every character a line holds at a position is counted there |
| Year2016Day06.LinesWithin | src/year_2016/day06.rs:22-24 | no line reaches past `max_pos` |
| Year2016Day06.LongestLine | src/year_2016/day06.rs:15-25 | unless every line is empty, some line ends exactly at `max_pos` |
| Year2016Day06.EmptyLines | src/year_2016/day06.rs:15 | when every line is empty `max_pos` stays 0 |
| Year2016Day06.CountColumns | src/year_2016/day06.rs:14-26 | the map has a key for exactly the (character, position) pairs that occur, each with its number of lines, and `max_pos` is the largest position |
| Year2016Day06.MostStep | src/year_2016/day06.rs:30-33 | keeping the strictly larger count keeps a most common character among the entries seen so far |
| Year2016Day06.LeastStep | src/year_2016/day06.rs:34-37 | keeping the strictly smaller count keeps a least common character among the entries seen so far |
| Year2016Day06.OtherPosition | src/year_2016/day06.rs:29-38 | an entry for another position leaves this position's choices as they were |
| Year2016Day06.SelectColumns | src/year_2016/day06.rs:27-38 | visiting the entries in any order leaves, per position, a character of largest count and one of smallest count, or the initial ('a', 0) and ('a', u32::MAX) when nothing is at that position |
| Year2016Day06.SelectionsMean | src/year_2016/day06.rs:14-38 | the choices made over the count map are most and least common characters of the lines themselves |
| Year2016Day06.ErrorCorrect | src/year_2016/day06.rs:12-42 | both messages are `max_pos + 1` long; each position holds a most common (resp. least common among those present) character of that column, or 'a' where no line reaches |
| Year2016Day06.ColumnsWithin | src/year_2016/day06.rs:22-27 | every counted position has a slot in the output |
| Year2016Day06.SomeLineAt | src/year_2016/day06.rs:17-21 | a counted character does occur at that position of some line |
| Year2016Day06.EveryColumnReal | src/year_2016/day06.rs:15-27 | unless every line is empty, every output position is reached by some line |
| Year2016Day07.Flip | src/year_2016/day07.rs:16-23 | `flip` swaps the kind of sequence and keeps its two letters in their roles |
| Year2016Day07.FlipInvolution | src/year_2016/day07.rs:16-23 | flipping twice gives the sequence back, and no sequence is its own flip |
| Year2016Day07.InsideMeansLastBracketOpens | src/year_2016/day07.rs:34-42 | the `inside` flag at a window is set exactly when the last bracket at or before the window's first character is `[` |
| Year2016Day07.WindowHasBracket | src/year_2016/day07.rs:43-47 | the inner loop skips the window exactly when one of its characters is a bracket |
| Year2016Day07.SupportsTls | src/year_2016/day07.rs:34-55 | the TLS loop answers yes exactly when some bracket-free ABBA window lies outside brackets and none lies inside |
| Year2016Day07.SslScan | src/year_2016/day07.rs:58-84 | the SSL loop answers yes exactly when a later bracket-free ABA window completes an earlier one's flip; `distinct` selects the code as written or with the middle letter required to differ |
| Year2016Day07.RecordedNext | src/year_2016/day07.rs:71-78 | each window adds its sequence to `seen` exactly when it holds an ABA |
| Year2016Day07.SslMeaning | src/year_2016/day07.rs:58-84 | SSL as found by the loop means: some ABA outside brackets has its BAB inside, in either order along the line |
| Year2016Day07.AbaBabIsSsl | src/year_2016/day07.rs:71-82 | any ABA outside with its BAB inside makes the loop answer yes |
| Year2016Day07.SslAsWrittenAcceptsRepeat | src/year_2016/day07.rs:71 | as written, `aaa[aaa]` supports SSL; with distinct letters required it does not |
| Year2016Day07.CountAddresses | src/year_2016/day07.rs:28-85 | the counts are the numbers of lines supporting TLS and SSL, each at most the number of lines |
| Year2016Day08.Blank | src/year_2016/day08.rs:20 | the display starts as 6 rows of 50 pixels |
| Year2016Day08.Rotate | src/year_2016/day08.rs:35 | `rotate_right` keeps the length of the row |
| Year2016Day08.RotateAt | src/year_2016/day08.rs:35 | after `rotate_right(k)`, position i holds the element k places before it, counting round the end |
| Year2016Day08.RotateCompose | src/year_2016/day08.rs:35 | rotating by a and then by b is rotating by a + b round the length |
| Year2016Day08.RotateWhole | src/year_2016/day08.rs:35 | rotating by the whole length or by nothing changes nothing |
| Year2016Day08.RectOn | src/year_2016/day08.rs:22-29 | `rect` keeps the 6 by 50 shape; what it lights is stated by RectProperties and Display.RectCommand |
| Year2016Day08.RotateRowOf | src/year_2016/day08.rs:30-35 | `rotate row` keeps the 6 by 50 shape; its effect is stated by RotateRowUndo and RotateRowKeepsLit |
| Year2016Day08.Column | src/year_2016/day08.rs:41 | the column copied out has 6 pixels |
| Year2016Day08.RotateColumnOf | src/year_2016/day08.rs:36-46 | `rotate column` keeps the 6 by 50 shape; its effect is stated by RotateColumnIsRotation |
| Year2016Day08.RotateColumnIsRotation | src/year_2016/day08.rs:41-45 | the chosen column ends rotated down by `by % 6` and every other column is unchanged |
| Year2016Day08.RotateColumnCells | src/year_2016/day08.rs:41-45 | pixel by pixel: the chosen column takes the rotated values and the rest of the display stays |
| Year2016Day08.RotateRowUndo | src/year_2016/day08.rs:35 | rotating a row by k < 50 and then by 50 - k restores the display |
| Year2016Day08.RectProperties | src/year_2016/day08.rs:25-29 | `rect` twice is `rect` once, and no lit pixel is turned off |
| Year2016Day08.CountOnAppend | src/year_2016/day08.rs:48-52 | the lit count of two runs of pixels is the sum of their counts |
| Year2016Day08.RotateKeepsCount | src/year_2016/day08.rs:35 | a rotation keeps the number of lit pixels of a row |
| Year2016Day08.LitRowsReplace | src/year_2016/day08.rs:48-52 | replacing a row by one with as many lit pixels keeps the display's count |
| Year2016Day08.RotateRowKeepsLit | src/year_2016/day08.rs:35 | a row rotation keeps the number of lit pixels on the display |
| Year2016Day08.Apply | src/year_2016/day08.rs:21-46 | a command keeps the display 6 by 50; an unrecognised line changes nothing |
| Year2016Day08.ApplyAll | src/year_2016/day08.rs:21-47 | the commands in order keep the display 6 by 50 |
| Year2016Day08.Display.Grid | src/year_2016/day08.rs:20 | the display read as rows agrees with the 6 by 50 array pixel by pixel |
| Year2016Day08.Display.constructor | src/year_2016/day08.rs:20 | a new display is all off |
| Year2016Day08.Display.RectCommand | src/year_2016/day08.rs:22-29 | the two loops light the top-left a by b corner and leave the rest |
| Year2016Day08.Display.RotateRowCommand | src/year_2016/day08.rs:30-35 | row y is rotated right by `by % 50` in place |
| Year2016Day08.Display.RotateColumnCommand | src/year_2016/day08.rs:36-46 | column x is copied out, rotated by `by % 6` and written back, the rest unchanged |
| Year2016Day08.Display.Execute | src/year_2016/day08.rs:21-46 | one line's command changes the display as Apply says |
| Year2016Day08.Display.LitCount | src/year_2016/day08.rs:48-52 | the count of lit pixels over the flattened display |
| Year2016Day08.LitAfter | src/year_2016/day08.rs:18-53 | the lit count after every command applied in order to a blank display |
| Year2016Day09.DigitCount | src/year_2016/day09.rs:15-49 | `read_usize` consumes at most the characters that are there |
| Year2016Day09.DigitRun | src/year_2016/day09.rs:15-49 | what `read_usize` consumes is all digits, and it stops only at the end or at a non-digit |
| Year2016Day09.DigitCountUnique | src/year_2016/day09.rs:15-49 | the maximal run of leading digits is the only place the loop can stop |
| Year2016Day09.ReadUsize | src/year_2016/day09.rs:10-51 | adding each digit, multiplying by ten and dividing by ten at the end gives the decimal value of the leading digits (0 for none) and leaves the iterator just after them |
| Year2016Day09.DigitStep | src/year_2016/day09.rs:17-48 | one more digit multiplies the value by ten and adds the digit |
| Year2016Day09.ReadDigits | src/year_2016/day09.rs:15-49 | a run of digits followed by a non-digit or the end is read whole, to its decimal value |
| Year2016Day09.ReadMarker | src/year_2016/day09.rs:59-67 | a parsed marker spans at least `(x)` and no more than the text |
| Year2016Day09.ReadSpelled | src/year_2016/day09.rs:59-67 | reading `(AxB)` written in decimal gives back A, B and the marker's length |
| Year2016Day09.ReadWritten | src/year_2016/day09.rs:59-67 | a marker laid out as `(`, digits, `x`, digits, `)` reads as the two digit values, leading zeros allowed |
| Year2016Day09.DigitsThen | src/year_2016/day09.rs:15-49 | digits followed by a non-digit are read as exactly those digits |
| Year2016Day09.ReadMarkerOk | src/year_2016/day09.rs:59-67 | when `x` and `)` follow the two numbers, the marker reads as those numbers and ends after the `)` |
| Year2016Day09.PlusPlus | src/year_2016/day09.rs:68-74 | adding to the running count twice is adding the sum, and an error passes through |
| Year2016Day09.OnceItem | src/year_2016/day09.rs:56-75 | one turn of `decompress_len` reads at least one character and no more than are left |
| Year2016Day09.ScanMarker | src/year_2016/day09.rs:59-67 | the marker steps of both loops give exactly ReadMarker's result, with its errors for a missing `x` or `)` |
| Year2016Day09.CollectSegment | src/year_2016/day09.rs:69-99 | the segment loop takes the next `count` characters, or fails with "Expected a char to cache" when the text runs out |
| Year2016Day09.OnceTurn | src/year_2016/day09.rs:57-75 | one turn of `decompress_len` is OnceItem on the text still unread |
| Year2016Day09.LenAdvance | src/year_2016/day09.rs:56-76 | after one turn, the running count plus the length of what is left is still the answer |
| Year2016Day09.DecompressLen | src/year_2016/day09.rs:53-78 | `decompress_len` returns Len, the single expansion's length or its first error |
| Year2016Day09.FullItem | src/year_2016/day09.rs:83-106 | one turn of `full_decompress_len` reads at least one character and no more than are left |
| Year2016Day09.FullTurn | src/year_2016/day09.rs:84-106 | one turn, with the segment measured by the recursive call, is FullItem on the text still unread |
| Year2016Day09.FullAdvance | src/year_2016/day09.rs:83-107 | after one turn, the running count plus the full length of what is left is still the answer |
| Year2016Day09.FullDecompressLen | src/year_2016/day09.rs:80-109 | `full_decompress_len` returns Full, the recursive expansion's length or its first error |
| Year2016Day09.PlainText | src/year_2016/day09.rs:72-106 | without markers both lengths are the text's own length |
| Year2016Day09.MarkerOnce | src/year_2016/day09.rs:57-71 | a marker (AxB) and its segment add A times B to the single expansion whatever the segment holds, and reading resumes after the segment |
| Year2016Day09.MarkerFull | src/year_2016/day09.rs:84-102 | in the full expansion a marker's segment adds its own full length B times, or passes on its error |
| Year2016Day09.ShortSegment | src/year_2016/day09.rs:69-99 | a segment that runs past the end is the "Expected a char to cache" error in both |
| Year2016Day09.MissingSeparator | src/year_2016/day09.rs:61-90 | a count followed by anything but `x` is the "Expected 'x'" error in both |
| Year2016Day10.AddSource | src/year_2016/day10.rs:32-43 | `add_source` fails with "Too many sources!" exactly when both inputs are taken; otherwise it appends the source after those already given and leaves the outputs alone |
| Year2016Day10.TwoSources | src/year_2016/day10.rs:32-43 | a fresh bot takes two sources in order and refuses a third |
| Year2016Day10.AddOutput | src/year_2016/day10.rs:45-54 | `add_output` fails with "Too many outputs!" exactly when an output is already set; otherwise it sets both and keeps the inputs |
| Year2016Day10.OutputsOnce | src/year_2016/day10.rs:45-54 | a bot's outputs can be set only once |
| Year2016Day10.OutputAddSource | src/year_2016/day10.rs:113-121 | an output takes one source and refuses a second with "Too many sources!" |
| Year2016Day10.Fetch | src/year_2016/day10.rs:57-72 | a missing input is the given error; a fetch keeps the bot vector's length and its indices in range |
| Year2016Day10.Values | src/year_2016/day10.rs:56-96 | `get_values` answers low <= high, the two being the bot's inputs, which are now literals; outputs are kept, and a missing input_a is "No input_a available" |
| Year2016Day10.LiteralValues | src/year_2016/day10.rs:57-95 | a bot whose inputs are both literals answers their minimum and maximum at once and changes nothing |
| Year2016Day10.ValuesMemoised | src/year_2016/day10.rs:73-90 | asking the bot again, as the first answer left it, gives the same chips and changes nothing |
| Year2016Day10.OutputValue | src/year_2016/day10.rs:123-142 | `get_value` fails with "No source found for Output" when there is no source, and otherwise leaves the output holding its value as a literal |
| Year2016Day10.OutputMemoised | src/year_2016/day10.rs:140 | an output asked again answers the same value and changes nothing |
| Year2016Day10.FetchInPlace | src/year_2016/day10.rs:59-70 | copying `bots[i]`, asking it and writing the copy back does to the vector what Fetch says |
| Year2016Day10.GetValues | src/year_2016/day10.rs:56-96 | the in-place `get_values` answers and updates the vector and the bot as Values says, with the same errors |
| Year2016Day10.GetOutputValue | src/year_2016/day10.rs:123-142 | the in-place `Output::get_value` answers and updates as OutputValue says, with the same errors |
| Year2016Day11.Cmp | src/year_2016/day11.rs:20-35 | `Device::cmp` orders as the key (id, then microchip below generator), and is Equal only on equal devices |
| Year2016Day11.DeviceOrdering | src/year_2016/day11.rs:371-402 | the eight comparisons of the `device_ordering` test |
| Year2016Day11.IsPair | src/year_2016/day11.rs:44-50 | a pair is two different devices with the same id |
| Year2016Day11.PairSymmetric | src/year_2016/day11.rs:44-50 | `is_pair` does not depend on the order of its arguments |
| Year2016Day11.PairIsNext | src/year_2016/day11.rs:20-50 | a microchip pairs exactly with the device whose key is (its id, generator), the next key above it |
| Year2016Day11.UnpairedMeaning | src/year_2016/day11.rs:96-111 | on a sorted floor without repeats, "some microchip's next neighbour is not its generator" is "some microchip's generator is not on the floor" |
| Year2016Day11.GeneratorFollows | src/year_2016/day11.rs:104-108 | on a sorted floor a microchip whose generator is present has it as the next device |
| Year2016Day11.CheckFloor | src/year_2016/day11.rs:92-115 | the per-floor scan says safe exactly when the floor has at most one device or lacks a generator or lacks an unpaired microchip |
| Year2016Day11.Valid | src/year_2016/day11.rs:90-119 | `valid` holds exactly when every floor is safe |
| Year2016Day11.Complete | src/year_2016/day11.rs:80-88 | `complete` holds exactly when every floor below the top is empty and the elevator is on the top floor |
| Year2016Day11.StateExamples | src/year_2016/day11.rs:434-478 | the four state tests: complete, incomplete, valid and invalid |
| Year2016Day11.Normalized | src/year_2016/day11.rs:235-258 | the intended normalisation lists at most one entry per device |
| Year2016Day11.NormalizedKeepsKinds | src/year_2016/day11.rs:235-258 | intended normalisation keeps the floor's numbers of generators and microchips, each pair standing for one of each |
| Year2016Day11.AsWrittenMiscounts | src/year_2016/day11.rs:247-254 | as written, a microchip followed by an unrelated generator is recorded as two generators |
| Year2016Day11.SamePairing | src/year_2016/day11.rs:243-254 | the written and intended normalisations have the same length and a pair in the same places |
| Year2016Day11.AsWrittenMergesFloors | src/year_2016/day11.rs:235-330 | the written normalisation gives [M1, G2] and [G3, G2] the same form, so the search treats inequivalent floors as one seen state; the intended forms differ |
| Year2016Day11.PushAll | src/year_2016/day11.rs:241-254 | pushing items into an OrderedVec keeps it sorted and adds exactly those items |
| Year2016Day11.NormalizeFloor | src/year_2016/day11.rs:235-258 | the written normalisation's OrderedVec is sorted and holds the as-written entries |
| Year2016Day11.IntendedFloor | src/year_2016/day11.rs:235-258 | the intended normalisation's OrderedVec is sorted and holds the intended entries |
| Year2016Day11.NormalizeDevices | src/year_2016/day11.rs:235-258 | the `normalize_devices` loop builds NormalizeFloor, including the advance-then-read of the unpaired branch |
| Year2016Day11.ShortFloor | src/year_2016/day11.rs:236-238 | an empty floor normalises to nothing and a one-device floor to its kind |
| Year2016Day11.PushOne | src/year_2016/day11.rs:238 | `from_one` is one push into an empty OrderedVec |
| Year2016Day11.NormalizedStep | src/year_2016/day11.rs:243-254 | one turn of the loop pushes a pair and skips two, or skips one and pushes the next device's kind, or at the end pushes the last device |
| Year2016Day11.Normalize | src/year_2016/day11.rs:222-232 | `State::normalize` normalises every floor as written and keeps the elevator |
| Year2016Day11.IntendedNormalize | src/year_2016/day11.rs:222-232 | the intended `State::normalize`: every floor normalised as intended, the elevator kept |
| Year2016Day11.RemoveAt | src/year_2016/day11.rs:133-149 | `remove(k)` shortens the floor by one |
| Year2016Day11.RemoveAtSplices | src/year_2016/day11.rs:133-149 | `remove(k)` leaves the devices before and after k, in order |
| Year2016Day11.RemoveAtKeeps | src/year_2016/day11.rs:133-149 | removing takes out exactly the device at k and keeps the floor sorted |
| Year2016Day11.SpliceCounts | src/year_2016/day11.rs:133-134 | the spliced floor plus the removed device is the floor |
| Year2016Day11.SpliceSorted | src/year_2016/day11.rs:133-134 | a spliced sorted floor is sorted |
| Year2016Day11.Insert | src/year_2016/day11.rs:135-150 | a push lengthens the floor by one |
| Year2016Day11.DeviceKeyInjective | src/year_2016/day11.rs:20-35 | devices with equal keys are equal |
| Year2016Day11.InsertSplits | src/year_2016/day11.rs:135-150 | on a sorted floor the pushed device lands after every device not above it |
| Year2016Day11.DropLastSlices | src/year_2016/day11.rs:135-136 | slicing before and after the split point and appending the last device rebuilds the suffix |
| Year2016Day11.InsertIsPush | src/year_2016/day11.rs:135-150 | Insert is what `OrderedVec::push` leaves on a floor, whatever the binary search picks among equal keys |
| Year2016Day11.EqualBeforeSplit | src/year_2016/day11.rs:135-136 | an equal device on the floor sits just before the split point, so inserting before or after it is the same |
| Year2016Day11.EqualIsLastNotAbove | src/year_2016/day11.rs:135-136 | a device with the pushed key that is not above the split point is the last device before it |
| Year2016Day11.SplitAround | src/year_2016/day11.rs:135-136 | inserting a copy of device i before or after it gives the same floor |
| Year2016Day11.InsertKeeps | src/year_2016/day11.rs:135-150 | a push keeps the floor sorted and adds exactly the pushed device |
| Year2016Day11.MovedFrom | src/year_2016/day11.rs:132-137 | a clone with one or two devices taken from the elevator's floor and added to the adjacent one, the elevator moved there, is a move |
| Year2016Day11.MoveOneMoved | src/year_2016/day11.rs:147-175 | carrying one device to the floor above or below is a move |
| Year2016Day11.MovePairMoved | src/year_2016/day11.rs:130-191 | carrying two devices, `remove(j)` then `remove(i)`, is a move |
| Year2016Day11.PairRemoved | src/year_2016/day11.rs:133-188 | the two removals keep the floor sorted and take out exactly the two devices |
| Year2016Day11.PairInserted | src/year_2016/day11.rs:135-190 | the two pushes keep the floor sorted and add exactly the two devices |
| Year2016Day11.Kept | src/year_2016/day11.rs:138-141 | the candidates kept number at most those tried |
| Year2016Day11.KeptSound | src/year_2016/day11.rs:138-141 | every kept candidate is valid and is one of those tried |
| Year2016Day11.KeptComplete | src/year_2016/day11.rs:138-141 | every valid candidate tried is kept |
| Year2016Day11.KeptEmpty | src/year_2016/day11.rs:145 | nothing is kept exactly when no candidate tried is valid |
| Year2016Day11.KeptRowsSound | src/year_2016/day11.rs:130-143 | every state kept by a pairs loop is valid and is one of its candidates |
| Year2016Day11.KeptRowsComplete | src/year_2016/day11.rs:130-143 | every valid candidate of a pairs loop is kept |
| Year2016Day11.KeptRowsEmpty | src/year_2016/day11.rs:145-182 | a pairs loop keeps nothing exactly when none of its candidates is valid |
| Year2016Day11.SingleMovesAre | src/year_2016/day11.rs:147-175 | the single candidates are the one-device moves, device by device |
| Year2016Day11.PairRowsAre | src/year_2016/day11.rs:130-190 | the pair candidates are the two-device moves of the two loops' index ranges |
| Year2016Day11.SinglesAreSteps | src/year_2016/day11.rs:147-179 | every kept single move is a legal step |
| Year2016Day11.PairsAreSteps | src/year_2016/day11.rs:130-195 | every kept pair move is a legal step |
| Year2016Day11.SuccessorsAreSteps | src/year_2016/day11.rs:121-202 | every state `move_each` returns is a legal step: one floor up or down, one or two devices carried, nothing else changed, valid |
| Year2016Day11.UpSteps | src/year_2016/day11.rs:125-157 | every state returned going up is a legal step |
| Year2016Day11.DownSteps | src/year_2016/day11.rs:159-199 | every state returned going down is a legal step |
| Year2016Day11.PairKept | src/year_2016/day11.rs:130-143 | a valid pair move of a pairs loop's range is kept |
| Year2016Day11.PairsNoneKept | src/year_2016/day11.rs:145-182 | when a pairs loop keeps nothing, each of its moves is invalid |
| Year2016Day11.PairsNoneValid | src/year_2016/day11.rs:130-196 | when none of its moves is valid, a pairs loop keeps nothing |
| Year2016Day11.PairCandInvalid | src/year_2016/day11.rs:130-196 | each candidate of a pairs loop with no valid move is invalid |
| Year2016Day11.SinglesNoneValid | src/year_2016/day11.rs:147-180 | when no single move is valid, none is kept |
| Year2016Day11.SingleKept | src/year_2016/day11.rs:147-180 | a valid single move is kept |
| Year2016Day11.SinglesNoneKept | src/year_2016/day11.rs:182 | when no single move is kept, each is invalid |
| Year2016Day11.UpComplete | src/year_2016/day11.rs:125-157 | going up, every valid pair move is returned, and when none is valid every valid single move is |
| Year2016Day11.DownComplete | src/year_2016/day11.rs:159-199 | going down, when a floor below holds a device, every valid single move is returned, and when none is valid every valid pair move of the `j` from `i` range is, `(i, i)` carrying devices i and i + 1 |
| Year2016Day11.MoveEach | src/year_2016/day11.rs:121-202 | `move_each` returns the up moves followed by the down moves |
| Year2016Day11.MovesUp | src/year_2016/day11.rs:125-157 | the valid pair moves up, or when there is none the valid single moves up |
| Year2016Day11.MovesDown | src/year_2016/day11.rs:159-199 | nothing when the floors below are empty; else the valid single moves down, or when there is none the valid pair moves down |
| Year2016Day11.LowerFloorsEmpty | src/year_2016/day11.rs:161-167 | the `is_empty` scan answers whether every floor below the elevator is empty |
| Year2016Day11.Singles | src/year_2016/day11.rs:147-180 | a singles loop keeps the valid one-device moves in order and counts them |
| Year2016Day11.Pairs | src/year_2016/day11.rs:130-196 | a pairs loop keeps the valid two-device moves in row order and counts them |
| Year2016Day11.PairsRow | src/year_2016/day11.rs:131-195 | one row of a pairs loop keeps its valid moves in order and counts them |
| Year2016Day11.EmptyPrefix | src/year_2016/day11.rs:205-212 | the count of empty floors at the bottom: all those floors are empty and the next, if any, is not |
| Year2016Day11.NoDevices | src/year_2016/day11.rs:213-218 | there are no devices exactly when every floor is empty |
| Year2016Day11.ScoreBound | src/year_2016/day11.rs:213-218 | the floor score is at most twice the floor count per device, and equals it exactly when every device is on the top floor |
| Year2016Day11.ScoreArith | src/year_2016/day11.rs:217 | the arithmetic step of ScoreBound: one more floor's score stays within the bound, reaching it only when all lower floors are empty |
| Year2016Day11.Closeness | src/year_2016/day11.rs:204-220 | `closeness` is ten thousand per empty floor at the bottom plus the floor score |
| Year2016Day11.PriorityCmp | src/year_2016/day11.rs:266-282 | `StatePriority::cmp` orders as the key: fewer steps rank higher, then greater closeness |
| Year2016Day11.PriorityOrderingBugFix | src/year_2016/day11.rs:494-505 | one step at closeness 38 ranks above two steps at closeness 42 |
| Year2016Day11.PushSound | src/year_2016/day11.rs:339 | pushing a state reached in its priority's step count keeps every queued state so reached |
| Year2016Day11.StepLands | src/year_2016/day11.rs:121-202 | a legal step leaves devices on the elevator's floor |
| Year2016Day11.StepOn | src/year_2016/day11.rs:334-339 | a step from a state queued at n steps may be queued at n + 1 |
| Year2016Day11.ReachesNext | src/year_2016/day11.rs:334-339 | a state reached in n moves and one more step is reached in n + 1 |
| Year2016Day11.NextStates | src/year_2016/day11.rs:334 | every state the search gets from `move_each` is a legal step |
| Year2016Day11.PushMoves | src/year_2016/day11.rs:334-340 | queueing the moves one step further on keeps the queue sound |
| Year2016Day11.PopSound | src/year_2016/day11.rs:323 | `pop` returns nothing exactly on an empty queue; a popped state is reached in its priority's steps, and what stays is sound |
| Year2016Day11.StartQueue | src/year_2016/day11.rs:321-322 | the queue starts with the initial state at the default priority |
| Year2016Day11.Visit | src/year_2016/day11.rs:324-340 | a seen normalised state is skipped without changing the queue; otherwise it is marked seen, and a complete state answers its step count |
| Year2016Day11.MinimumSteps | src/year_2016/day11.rs:319-346 | a step count returned is the length of a real sequence of legal moves from the initial state to a complete state |
| Year2016Day12.LiteralJump | src/year_2016/day12.rs:126-137 | `jnz` with a literal is a no-op exactly when the literal is written `0`; otherwise an unconditional jump backward exactly when the sign is `-`, with the given magnitude |
| Year2016Day12.Back | src/year_2016/day12.rs:52-58 | a backward jump that fits lands `magnitude` before the instruction pointer; one that would pass the start sends the instruction pointer to the program's end |
| Year2016Day12.Exec | src/year_2016/day12.rs:28-76 | one instruction, with the unconditional backward jump going back by its magnitude, keeps the register file's size |
| Year2016Day12.ExecAsWritten | src/year_2016/day12.rs:28-76 | one instruction as written, where `jnz 1 -k` steps back by one, keeps the register file's size |
| Year2016Day12.Execute | src/year_2016/day12.rs:24-82 | `execute` within the fuel bound ends exactly when the as-written run does, returning that run's final registers |
| Year2016Day12.ExecuteOne | src/year_2016/day12.rs:28-76 | one turn of the loop on the register array leaves the registers and pointer ExecAsWritten gives |
| Year2016Day12.ExecFrame | src/year_2016/day12.rs:28-76 | only the written register changes; a writing instruction moves on by one, and both readings agree on it |
| Year2016Day12.WhereReadingsDiffer | src/year_2016/day12.rs:66-72 | the two readings differ exactly at an unconditional backward jump inside the program whose magnitude is not one |
| Year2016Day12.RunHalts | src/year_2016/day12.rs:77-79 | a finished run has its instruction pointer at or past the end and the same number of registers |
| Year2016Day12.RunMoreFuel | src/year_2016/day12.rs:27-80 | more fuel never changes a finished run |
| Year2016Day12.SameWithoutJumpBackward | src/year_2016/day12.rs:66-72 | without an unconditional backward jump both readings run identically |
| Year2016Day12.ExampleProgram | src/year_2016/day12.rs:24-82 | `cpy 41 a; inc a; inc a; dec a; jnz a 2; dec a` ends with 42 in `a` |
| Year2016Day12.AsWrittenSkipsBack | src/year_2016/day12.rs:66-72 | on `jmp +3; inc a; jmp +9; jnz 1 -2` the code as written ends with 0 in `a`, the corrected jump with 1 |
| Year2016Day12.ForwardThenBack | src/year_2016/day12.rs:63-72 | with the corrected jump, `jnz 1 k` then `jnz 1 -k` returns to the start |
| Year2016Day13.PopCount | src/year_2016/day13.rs:14 | `count_ones` is zero exactly for zero and never exceeds the number |
| Year2016Day13.PopCountAppend | src/year_2016/day13.rs:14 | appending a bit to a number adds that bit to its count of ones |
| Year2016Day13.CardinalNeighbors | src/year_2016/day13.rs:20-47 | at most four neighbours, and a cell is one exactly when it is in `usize` range, one step away in a cardinal direction, and open |
| Year2016Day13.ManhattanMeaning | src/year_2016/day13.rs:61-65 | the heuristic (larger minus smaller on each axis) is the Manhattan distance, symmetric, and 1 exactly between adjacent cells |
| Year2016Day13.Route | src/year_2016/day13.rs:54-66 | the A* route ends at the goal and steps only to adjacent open cells; when the goal was popped it starts at the start and has no more steps than any open walk from the start to the goal, and when the frontier ran dry it is the goal alone and no open walk from the start reaches the goal |
| Year2016Day13.UnitPathCost | src/year_2016/day13.rs:60 | with every step costing 1, a walk costs its number of steps |
| Year2016Day13.ManhattanStep | src/year_2016/day13.rs:61-65 | one step to an adjacent cell changes the Manhattan distance to the goal by at most one |
| Year2016Day13.ManhattanBelowWalk | src/year_2016/day13.rs:61-65 | the Manhattan distance from a walk's first cell to the goal is at most the walk's number of steps |
| Year2016Day13.ManhattanAdmissible | src/year_2016/day13.rs:59-65 | the Manhattan heuristic is admissible for unit steps through open cells |
| Year2016Day13.OpenWalkIsNeighborWalk | src/year_2016/day13.rs:20-59 | a walk through adjacent open cells is a walk through `cardinal_neighbors` |
| Year2016Day13.NeighborWalkInGrid | src/year_2016/day13.rs:20-47 | a walk through `cardinal_neighbors` from a grid cell stays in `usize` range |
| Year2016Day13.NeighborWalkOpen | src/year_2016/day13.rs:20-47 | a walk through `cardinal_neighbors` steps to adjacent open cells |
| Year2016Day13.ExampleRouteIsOpen | src/year_2016/day13.rs:106-137 | the test's listed route from (1,1) to (7,4) with favourite number 10 is an open walk of eleven steps |
| Year2016Day13.ExampleRouteAdjacent | src/year_2016/day13.rs:120-134 | the listed route has twelve cells, each one step from the last |
| Year2016Day13.ExampleCellsOpenA | src/year_2016/day13.rs:10-125 | the first four cells of the listed route are open for favourite number 10 |
| Year2016Day13.ExampleCellsOpenB | src/year_2016/day13.rs:10-129 | the next four cells are open |
| Year2016Day13.ExampleCellsOpenC | src/year_2016/day13.rs:10-133 | the last four cells are open |
| Year2016Day13.NeighborsAdjacent | src/year_2016/day13.rs:20-47 | every cell `cardinal_neighbors` offers is an adjacent grid cell |
| Year2016Day13.BallNear | src/year_2016/day13.rs:81-96 | every cell reached within k rounds is in the grid and within Manhattan distance k of the start |
| Year2016Day13.BallGrows | src/year_2016/day13.rs:85-96 | a cell reached within k rounds stays reached |
| Year2016Day13.NextBall | src/year_2016/day13.rs:85-96 | the next round need only expand the newest frontier: neighbours of older cells are already reached |
| Year2016Day13.NeighborSetAdd | src/year_2016/day13.rs:87-94 | the neighbours of a frontier are gathered one cell at a time |
| Year2016Day13.Sweep | src/year_2016/day13.rs:86-95 | one round adds every neighbour of the frontier to `reached`, and the new frontier lists exactly the newly reached cells, once each |
| Year2016Day13.SweepCell | src/year_2016/day13.rs:88-93 | one frontier cell's neighbours not yet reached are reached and pushed once |
| Year2016Day13.WithinSteps | src/year_2016/day13.rs:81-97 | after the rounds `reached` is every cell within that many steps through open cells, all in the grid and that close to the start |
| Year2016Day13.Explore | src/year_2016/day13.rs:81-96 | the layered sweep over any neighbour function reaches exactly the cells within the given number of steps |
| Year2016Day14.RunFrom | src/year_2016/day14.rs:28-36 | a run counted from position i does not reach past the end |
| Year2016Day14.RunIsAllAre | src/year_2016/day14.rs:28-36 | the run from i is at least n long exactly when the n characters from i are all `ch` |
| Year2016Day14.RunEnds | src/year_2016/day14.rs:29-36 | the counted run is all `ch` and ends at the string's end or at another character |
| Year2016Day14.RunCovers | src/year_2016/day14.rs:29-36 | a run of `ch` starting inside the counted run lies within it |
| Year2016Day14.ShortRunNoTriple | src/year_2016/day14.rs:27-39 | no three equal characters start inside a run shorter than three |
| Year2016Day14.TripleMeaning | src/year_2016/day14.rs:25-42 | reading whole runs finds None exactly when no three equal characters in a row occur, and otherwise the character of the first place where three start |
| Year2016Day14.GetTripleChar | src/year_2016/day14.rs:25-42 | `get_triple_char` returns the character of the first run of three or more, or None |
| Year2016Day14.CountRun | src/year_2016/day14.rs:28-36 | the inner loop counts the whole run from the current character, at least one |
| Year2016Day14.FiveMeaning | src/year_2016/day14.rs:44-63 | stepping over other characters and reading runs of `ch` whole finds five `ch` in a row exactly when they occur |
| Year2016Day14.CheckFive | src/year_2016/day14.rs:44-63 | `check_five` answers whether five `ch` in a row occur |
| Year2016Day14.Examples | src/year_2016/day14.rs:25-63 | "aaaa" has a triple of `a` and "" none; "xaaaaay" has five `a` and "aaaabaaaa" does not |
| Year2016Day15.Passes | src/year_2016/day15.rs:11-17 | the inner loop's `pass` is true exactly when every disc is at slot 0 as the capsule reaches it |
| Year2016Day15.FindDropTime | src/year_2016/day15.rs:9-23 | the answer is the least time in `0..=usize::MAX` at which every disc is open, and None exactly when no time in that range works |
| Year2016Day15.NoDiscs | src/year_2016/day15.rs:10-20 | with no discs time 0 works |
| Year2016Day15.Period | src/year_2016/day15.rs:13 | the product of the slot counts is positive and a multiple of every disc's slot count |
| Year2016Day15.MultipleMod | src/year_2016/day15.rs:13 | adding a multiple of m keeps the remainder modulo m |
| Year2016Day15.RemainderUnique | src/year_2016/day15.rs:13 | a division with remainder in 0..m gives that remainder |
| Year2016Day15.MulSign | src/year_2016/day15.rs:13 | a non-zero multiple of m is at least m away from zero |
| Year2016Day15.ReduceModMultiple | src/year_2016/day15.rs:13 | reducing the time modulo a multiple of m keeps the disc test modulo m |
| Year2016Day15.MulAssoc | src/year_2016/day15.rs:13 | products regroup |
| Year2016Day15.OpenPeriodic | src/year_2016/day15.rs:13 | a disc is open at a time exactly when it is open at that time modulo the period |
| Year2016Day15.PeriodicOpen | src/year_2016/day15.rs:11-18 | all discs are open at a time exactly when they are at its remainder modulo the period |
| Year2016Day15.FoundWhenSolvable | src/year_2016/day15.rs:9-23 | when the period fits in `usize`, discs that open together at some time open together at a time the loop tries |
| Year2016Day15.Example | src/year_2016/day15.rs:58-62 | discs (5, 4) and (2, 1) first open together at time 5 |
| Year2016Day16.Invert | src/year_2016/day16.rs:14-19 | `invert` always changes the digit |
| Year2016Day16.FromChar | src/year_2016/day16.rs:21-27 | `from_char` succeeds exactly on '0' and '1' |
| Year2016Day16.ToChar | src/year_2016/day16.rs:29-34 | `to_char` gives '0' or '1' |
| Year2016Day16.InvertInvolution | src/year_2016/day16.rs:14-19 | inverting twice gives the digit back |
| Year2016Day16.CharRoundTrip | src/year_2016/day16.rs:21-34 | `from_char(to_char(d))` is d, and `to_char` undoes a successful `from_char` |
| Year2016Day16.RevInv | src/year_2016/day16.rs:87-91 | reading backwards and inverting keeps the length |
| Year2016Day16.RevInvAt | src/year_2016/day16.rs:87-91 | digit k of the result is the inverted digit k places from the end |
| Year2016Day16.RevInvInvolution | src/year_2016/day16.rs:87-91 | reversing and inverting twice gives the digits back |
| Year2016Day16.RevInvAppend | src/year_2016/day16.rs:87-91 | reversing and inverting a concatenation swaps the halves |
| Year2016Day16.Dragon | src/year_2016/day16.rs:87-91 | a dragon-curve step makes 2n + 1 digits |
| Year2016Day16.GrowMeaning | src/year_2016/day16.rs:85-94 | growing reaches the wanted length and keeps the original as a prefix |
| Year2016Day16.InvertChunk | src/year_2016/day16.rs:44-51 | `DirectedChunk::invert` swaps Original and Reversed and inverts a digit chunk |
| Year2016Day16.InvertChunkInvolution | src/year_2016/day16.rs:44-51 | inverting a chunk twice gives it back |
| Year2016Day16.Expand | src/year_2016/day16.rs:53-58 | a chunk stands for as many digits as `DirectedChunk::len` says |
| Year2016Day16.ExpandInvert | src/year_2016/day16.rs:44-51 | an inverted chunk stands for its digits read backwards and inverted |
| Year2016Day16.UptoLength | src/year_2016/day16.rs:76-83 | the digits of the first k chunks number the summed chunk lengths |
| Year2016Day16.WidthIsLength | src/year_2016/day16.rs:76-83 | the summed chunk lengths are the number of digits the chunks stand for |
| Year2016Day16.UptoPrefix | src/year_2016/day16.rs:85-94 | the digits of fewer chunks are a prefix of the digits of more |
| Year2016Day16.UptoSame | src/year_2016/day16.rs:88-91 | appending chunks does not change the digits of those before |
| Year2016Day16.UptoAppend | src/year_2016/day16.rs:88-91 | the digits of appended chunks follow the digits of the old ones |
| Year2016Day16.ConcatAssoc | src/year_2016/day16.rs:88-91 | concatenation regroups |
| Year2016Day16.ExpansionAppend | src/year_2016/day16.rs:88-91 | the digits of two chunk lists joined are their digits joined |
| Year2016Day16.RevInvChunks | src/year_2016/day16.rs:87-91 | the chunks reversed and inverted are as many as before |
| Year2016Day16.RevInvChunksLast | src/year_2016/day16.rs:87-91 | the last chunk comes first, inverted |
| Year2016Day16.RevInvChunksFirst | src/year_2016/day16.rs:87-91 | the first chunk comes last, inverted |
| Year2016Day16.ExpansionRevInv | src/year_2016/day16.rs:87-91 | reversing and inverting the chunks reverses and inverts their digits |
| Year2016Day16.RoundIsDragon | src/year_2016/day16.rs:87-91 | a fill round on chunks is a dragon-curve step on the digits |
| Year2016Day16.ExpansionSingle | src/year_2016/day16.rs:53-58 | a one-chunk list stands for that chunk's digits |
| Year2016Day16.Min | src/year_2016/day16.rs:82 | `min` is at most both and equal to one of them |
| Year2016Day16.DigitsOf | src/year_2016/day16.rs:76-83 | the disk's digits are the first `max_len` digits, or all when fewer |
| Year2016Day16.Disk.constructor | src/year_2016/day16.rs:68-74 | `Disk::new` holds the source alone as one Original chunk |
| Year2016Day16.Disk.Len | src/year_2016/day16.rs:76-83 | `len` is the digits the chunks stand for, capped at `max_len` |
| Year2016Day16.Disk.Digits | src/year_2016/day16.rs:76-83 | the disk holds `len` digits |
| Year2016Day16.Disk.FillRound | src/year_2016/day16.rs:87-91 | one round appends a zero and every chunk so far inverted, last first; the digits take a dragon-curve step |
| Year2016Day16.Disk.Fill | src/year_2016/day16.rs:85-94 | `fill` grows the digits by dragon-curve steps until `max_len` and leaves `len` equal to `max_len` |
| Year2016Day16.Disk.Checksum | src/year_2016/day16.rs:96-112 | `checksum` pairs the disk's digits until an odd-length result, stopping on an empty one (the corrected reading: see Findings) |
| Year2016Day16.ReadPairs | src/year_2016/day16.rs:97-105 | the pairing loop yields, for each full pair read from the iterator, One when the two digits agree |
| Year2016Day16.PairsOfPrefix | src/year_2016/day16.rs:100-105 | pairs read one by one from the first n digits are their pairs |
| Year2016Day16.Pairs | src/year_2016/day16.rs:100-105 | pairing halves the length, dropping an odd digit at the end |
| Year2016Day16.PairsAt | src/year_2016/day16.rs:102 | pair i is One exactly when digits 2i and 2i + 1 agree |
| Year2016Day16.ChecksumOdd | src/year_2016/day16.rs:96-112 | a checksum of at least two digits has odd length, fewer digits give an empty checksum, and it is at most half the digits |
| Year2016Day16.ShortChecksumNeverEnds | src/year_2016/day16.rs:96-112 | as written, on fewer than two digits `checksum` calls itself on an empty disk at every level, so it never returns |
| Year2016Day16.ChecksumAsWrittenEnds | src/year_2016/day16.rs:96-112 | as written, from two digits on, `checksum` returns within as many levels as there are digits, with the checksum above |
| Year2016Day16.ReadAt | src/year_2016/day16.rs:142-184 | inside a chunk the iterator's position is on the disk and the digit there is the chunk's digit, the source digit or its inverse |
| Year2016Day16.ChunkAt | src/year_2016/day16.rs:122-136 | offset `off` of chunk k is at the summed widths of the chunks before, plus `off` |
| Year2016Day16.UptoStep | src/year_2016/day16.rs:122-136 | chunk k's digits follow those of the chunks before it |
| Year2016Day16.ExpandAt | src/year_2016/day16.rs:130-180 | the digit at a chunk's offset is the digit read at the matching source index |
| Year2016Day16.PastEnd | src/year_2016/day16.rs:124-131 | past the last chunk the disk index is the whole width |
| Year2016Day16.Advance | src/year_2016/day16.rs:149-176 | leaving a chunk from its last digit moves the disk index one on |
| Year2016Day16.DiskIter.constructor | src/year_2016/day16.rs:187-199 | `into_iter` starts at position 0 of the disk's digits |
| Year2016Day16.DiskIter.DiskIndex | src/year_2016/day16.rs:122-136 | `disk_index` is the iterator's position on the disk |
| Year2016Day16.DiskIter.Next | src/year_2016/day16.rs:142-184 | `next` yields the digit at the current position and moves one on, or None, changing nothing, once `max_len` digits or the chunks are used up |
| Year2016Day16.DiskIter.NextChunk | src/year_2016/day16.rs:149-176 | moving from a chunk's last digit starts the next chunk at its first source index |
| Year2016Day16.Collect | src/year_2016/day16.rs:237-241 | collecting the iterator yields exactly the disk's digits |
| Year2016Day16.DigitsOfPrefix | src/year_2016/day16.rs:237-241 | digits read one by one from the first n are those n digits |
| Year2016Day16.Text | src/year_2016/day16.rs:29-34 | the text has one character per digit |
| Year2016Day16.SingleDigitExamples | src/year_2016/day16.rs:234-254 | filling "1" to 3 digits gives "100", "0" gives "001" |
| Year2016Day16.FivesExample | src/year_2016/day16.rs:256-265 | filling "11111" to 11 digits gives "11111000000" |
| Year2016Day16.LongExample | src/year_2016/day16.rs:267-289 | filling "111100001010" to 25 digits gives "1111000010100101011110000" |
| Year2016Day16.LongBack | src/year_2016/day16.rs:267-289 | the example's source read backwards and inverted is "101011110000" |
| Year2023Day01.DigitParse | src/year_2023/day01.rs:8-22 | '0' to '9' parse to a value below 10; every other character is an error |
| Year2023Day01.DigitParseRoundTrip | src/year_2023/day01.rs:8-22 | the character of digit d parses back to d |
| Year2023Day01.IndexMatches | src/year_2023/day01.rs:40-55 | the observer's index is always a prefix of its word that ends the text seen, so it only reports when the text ends with the word |
| Year2023Day01.ObserverExact | src/year_2023/day01.rs:40-55 | for a word whose first letter does not recur, the observer reports exactly when the text seen ends with the word |
| Year2023Day01.NineOverlapMissed | src/year_2023/day01.rs:40-48 | as written, the "nine" observer never reports on "ninine" although the text ends with "nine" |
| Year2023Day01.IndexAfterJoin | src/year_2023/day01.rs:40-55 | observing two texts one after the other is observing their concatenation |
| Year2023Day01.CarriedMatchFires | src/year_2023/day01.rs:63-106 | observers keep their index from one line to the next: after "1on" the "one" observer reports on a line starting with 'e' |
| Year2023Day01.Observer.constructor | src/year_2023/day01.rs:32-38 | a new observer is at index 0 of a non-empty word |
| Year2023Day01.Observer.Observe | src/year_2023/day01.rs:40-55 | advance on a match, restart at 1 on the first letter, otherwise 0; report the value and reset once the whole word is matched |
| Year2023Day01.Combine | src/year_2023/day01.rs:103 | the first reported digit is kept and the last one replaced |
| Year2023Day01.FreshObserversExact | src/year_2023/day01.rs:99-106 | fresh observers over words with a unique first letter give the first and last word occurring in the line |
| Year2023Day01.IntendedNone | src/year_2023/day01.rs:107-111 | the intended digits are missing exactly when no digit word occurs in the line |
| Year2023Day01.ObserveLine | src/year_2023/day01.rs:99-106 | as written: every observer sees every character, keeps its index for the next line, and the digits are the first and last reported values |
| Year2023Day01.SpelledDigits | src/year_2023/day01.rs:99-106 | corrected: the first and last of the twenty words ending at each position of the line, in position and then list order |
| Year2023Day01.NumericDigitsEmpty | src/year_2023/day01.rs:88-98 | a line has no numeric digit exactly when none of its characters is one |
| Year2023Day01.Calibration | src/year_2023/day01.rs:88-98 | ten times the first digit plus the last digit, or an error for a line with no digit |
| Year2023Day01.SingleDigitTwice | src/year_2023/day01.rs:91-95 | a line with one digit d has calibration value 11·d |
| Year2023Day01.SumsError | src/year_2023/day01.rs:87-112 | the run is an error exactly when some line has no numeric digit or no digit word |
| Year2023Day01.CalibrationSums | src/year_2023/day01.rs:85-112 | the intended loop, with fresh observers on every line: it computes both sums or stops at the first line without a digit |
| Year2023Day02.ColourName | src/year_2023/day02.rs:36-55 | "red", "green" and "blue" name the three colours and no other word names one |
| Year2023Day02.ParseItemMeaning | src/year_2023/day02.rs:31-36 | an item parses exactly when it has two words, a count that fits in 32 bits and a colour name |
| Year2023Day02.ItemRoundTrip | src/year_2023/day02.rs:31-36 | a count written in decimal followed by a colour word parses back to that count and colour |
| Year2023Day02.ParseItemsMeaning | src/year_2023/day02.rs:29-36 | the items parse exactly when each one does, and each parses to its own draw |
| Year2023Day02.ScoreGame | src/year_2023/day02.rs:25-58 | the inner loops fail exactly when some item is malformed, with the first item's error; otherwise they give whether the game is possible and the fewest cubes of each colour |
| Year2023Day02.Tally | src/year_2023/day02.rs:37-54 | one item keeps `possible` true only within the bag's limit and raises the minimum of its colour to its count |
| Year2023Day02.SummaryStep | src/year_2023/day02.rs:37-54 | one more draw moves the summary from the draws before it to the draws with it |
| Year2023Day02.ParseItemsErrorSticks | src/year_2023/day02.rs:32-35 | once an item is malformed the game is an error whatever follows |
| Year2023Day02.FewestMeaning | src/year_2023/day02.rs:39-53 | the fewest count of a colour bounds every draw of that colour and is 0 or shown by some draw |
| Year2023Day02.FewestUnique | src/year_2023/day02.rs:39-53 | only one number bounds every draw of a colour and is 0 or one of them |
| Year2023Day02.PossibleIffWithinLimits | src/year_2023/day02.rs:38-50 | a game is possible exactly when its fewest red, green and blue fit in 12, 13 and 14 |
| Year2023Day02.ScoreLine | src/year_2023/day02.rs:16-62 | a line scores its number if possible and its power, or fails on a missing ": " split, a bad game number or a bad item |
| Year2023Day02.SumGames | src/year_2023/day02.rs:13-63 | the outer loop computes both sums over all lines or stops at the first line's error |
| Year2023Day02.TotalsErrorSticks | src/year_2023/day02.rs:15-24 | once a line fails the whole run fails with that line's error |
| Year2023Day02.FirstExample | src/year_2023/day02.rs:37-62 | the example's first game is possible and has power 48 |
| Year2023Day03.NumbersAreRuns | src/year_2023/day03.rs:53-86 | every number the row scan yields is a maximal run of digits of its row, with the value those digits denote |
| Year2023Day03.RunIsNumber | src/year_2023/day03.rs:53-86 | every maximal run of digits of a row is one of the numbers the scan yields |
| Year2023Day03.RunsAreNumbers | src/year_2023/day03.rs:53-86 | every maximal run of digits from a column on is one of the numbers from that column on |
| Year2023Day03.NumbersOrdered | src/year_2023/day03.rs:53-86 | the numbers of a row come left to right, each spanning at least one column, without overlapping |
| Year2023Day03.CloseRun | src/year_2023/day03.rs:67-85 | a run of digits ended by a non-digit or the end of the row is the next number, with the value of its digits |
| Year2023Day03.AddSymbolsMeaning | src/year_2023/day03.rs:72-80 | passing a row adds exactly its non-digit, non-`.` cells to the symbol map, each with its character and no numbers, and keeps every other entry |
| Year2023Day03.AllSymbolsMeaning | src/year_2023/day03.rs:49-87 | the symbol map has an entry exactly at the cells holding a symbol, each with that cell's character and no numbers |
| Year2023Day03.AllNumbersMeaning | src/year_2023/day03.rs:50-87 | the numbers of the schematic are exactly the maximal runs of digits of its rows, each with its value |
| Year2023Day03.NumbersAvoidSymbols | src/year_2023/day03.rs:54-80 | no number covers a symbol's cell |
| Year2023Day03.CloseInProgress | src/year_2023/day03.rs:67-85 | ending the number in progress appends the next number of the row |
| Year2023Day03.ScanCell | src/year_2023/day03.rs:54-81 | one character of a row extends or starts the number in progress on a digit, and otherwise ends it and enters a symbol unless the character is `.` |
| Year2023Day03.ScanLine | src/year_2023/day03.rs:52-86 | the inner loop appends the row's numbers in order and enters the row's symbols |
| Year2023Day03.Scan | src/year_2023/day03.rs:49-87 | the scan gives every number of the schematic in order and the map of every symbol |
| Year2023Day03.FirstIn | src/year_2023/day03.rs:92-123 | a found cell is one of the searched cells and holds a symbol |
| Year2023Day03.FirstInMeaning | src/year_2023/day03.rs:92-123 | the search finds nothing exactly when no searched cell holds a symbol, and otherwise the first such cell |
| Year2023Day03.FirstInConcat | src/year_2023/day03.rs:92-123 | searching two runs of cells in turn gives the first run's find if any, else the second's |
| Year2023Day03.FirstInPair | src/year_2023/day03.rs:102-113 | the left cell is looked at before the right one |
| Year2023Day03.ScanRow | src/year_2023/day03.rs:94-100 | the loop over `low_x..=high_x` returns the first cell of that row holding a symbol, or nothing |
| Year2023Day03.FindSymbol | src/year_2023/day03.rs:90-123 | the search for one number returns the first symbol cell in the order above, left, right, below |
| Year2023Day03.InRow | src/year_2023/day03.rs:94 | the cells of a row range are those with its `y` and a column within the range |
| Year2023Day03.NeighbourhoodMeaning | src/year_2023/day03.rs:90-123 | the searched cells include every cell touching the number, and besides those only the number's own first digit when it starts at column 0 |
| Year2023Day03.FirstSymbolMeaning | src/year_2023/day03.rs:89-123 | with no symbol on the number's digits, the search finds a symbol exactly when one touches the number |
| Year2023Day03.Attach | src/year_2023/day03.rs:89-124 | attaching numbers never adds or removes a symbol |
| Year2023Day03.AttachMeaning | src/year_2023/day03.rs:89-124 | after the loop each symbol keeps its character and its list holds, in order, the numbers whose first symbol it is; the sum is that of the numbers with a symbol around them |
| Year2023Day03.SumParts | src/year_2023/day03.rs:88-124 | the loop over the numbers gives the attached symbols and the sum of parts |
| Year2023Day03.PartsMeaning | src/year_2023/day03.rs:89-124 | a number of the schematic counts as a part exactly when some symbol touches it |
| Year2023Day03.SymbolCellsFromMeaning | src/year_2023/day03.rs:72-80 | the symbol cells of a row are exactly its symbol characters' cells, left to right |
| Year2023Day03.SymbolCellsMeaning | src/year_2023/day03.rs:126-130 | the cells whose ratios are added are exactly the symbol cells, each once, in row-major order |
| Year2023Day03.SumRatios | src/year_2023/day03.rs:126-130 | the ratio sum adds, for each symbol, the product of its two numbers when it is a `*` with exactly two |
| Year2023Day03.RatioSumIsGearSum | src/year_2023/day03.rs:126-130 | each symbol's ratio after attaching is the product of the two numbers whose first symbol is that `*`, when there are exactly two |
| Year2023Day03.Solve | src/year_2023/day03.rs:47-133 | the sum of parts adds the numbers with a symbol around them, and the ratio sum adds the gear ratios of all symbol cells |
| Year2023Day04.ScoreForCount | src/year_2023/day04.rs:9-21 | no matches score 0, and `n` matches score 2 to the power `n - 1` |
| Year2023Day04.ScoreDoubles | src/year_2023/day04.rs:13-19 | each match after the first doubles the score |
| Year2023Day04.ParseNumbersMeaning | src/year_2023/day04.rs:38-56 | a list of numbers parses exactly when every word is a `u32`, each giving its value |
| Year2023Day04.ExtraPiecesIgnored | src/year_2023/day04.rs:36-56 | pieces of the body after the actual numbers are never looked at |
| Year2023Day04.WonIgnoresRepeats | src/year_2023/day04.rs:37-57 | the matches count distinct numbers: listing every number twice on both sides changes nothing |
| Year2023Day04.ParseNumbersConcat | src/year_2023/day04.rs:38-46 | parsing two lists of words one after the other gives both lists' numbers |
| Year2023Day04.CopyCountStable | src/year_2023/day04.rs:59-64 | a card's number of copies depends only on the cards before it |
| Year2023Day04.ContribStable | src/year_2023/day04.rs:59-64 | the copies the first cards win do not depend on later cards |
| Year2023Day04.CopyTotalStable | src/year_2023/day04.rs:60-61 | the running total of cards does not depend on later cards |
| Year2023Day04.NoWinsNoCopies | src/year_2023/day04.rs:57-64 | when no card matches anything, every card is there once and nothing is won |
| Year2023Day04.ContribOnlyForward | src/year_2023/day04.rs:62-64 | a card only wins copies of cards after it |
| Year2023Day04.ExpandWith | src/year_2023/day04.rs:59 | the copy table grows to at least the given length, keeps its entries and fills new ones with 1 |
| Year2023Day04.AddCopies | src/year_2023/day04.rs:62-64 | each of the `won` cards after the current one gains the current card's copy count, and no other entry changes |
| Year2023Day04.PassCopies | src/year_2023/day04.rs:59-64 | the copy count read for a card is its number of copies, and the table stays the original plus the copies won so far |
| Year2023Day04.Scratch | src/year_2023/day04.rs:26-69 | the points are the sum of the cards' scores and the copies the total number of cards, or the first malformed card's error |
| Year2023Day04.AllWonStep | src/year_2023/day04.rs:31-57 | one more card extends the list of matches or stops with its error |
| Year2023Day04.SumsStep | src/year_2023/day04.rs:58-61 | one more card adds its score to the points and its copies to the total |
| Year2023Day04.AllWonErrorSticks | src/year_2023/day04.rs:45-55 | once a card is malformed the whole input is, with that card's error |
| Year2023Day04.ExamplePoints | src/year_2023/day04.rs:57-58 | the example's cards, winning 4, 2, 2, 1, 0 and 0 numbers, are worth 13 points |
| Year2023Day04.ExampleCounts | src/year_2023/day04.rs:59-64 | the example's cards end with 1, 2, 4, 8, 14 and 1 copies |
| Year2023Day04.ExampleCopies | src/year_2023/day04.rs:60-61 | the example ends with 30 cards |
| Year2023Day05.NextMeaning | src/year_2023/day05.rs:26-36 | `next` moves one place along the almanac and gives nothing only after the seventh map |
| Year2023Day05.NamesFrom | src/year_2023/day05.rs:26-36 | walking `next` from a map visits as many maps as remain after it |
| Year2023Day05.AllNamesVisited | src/year_2023/day05.rs:21-36 | from the first map, `next` visits all seven maps once each, in almanac order |
| Year2023Day05.ParseRoundTrip | src/year_2023/day05.rs:76-101 | a rule written as three decimal `u64` numbers parses back to itself |
| Year2023Day05.ParseNeedsThree | src/year_2023/day05.rs:76-101 | a rule line parses only when it has exactly three fields |
| Year2023Day05.OverlapMeaning | src/year_2023/day05.rs:103-113 | `overlap` is Before below the source interval, Inside within it and After at or above its end |
| Year2023Day05.MapRangeCases | src/year_2023/day05.rs:116-150 | the updated and preserved pieces for every endpoint combination of a non-empty range; Inside/Inside is shifted by destination - source, wholly Before or After is preserved unchanged |
| Year2023Day05.MapRangeAt | src/year_2023/day05.rs:116-150 | value by value, a non-empty range's uncovered values are preserved once and its covered values appear shifted once among the updated pieces |
| Year2023Day05.MapRangeLengths | src/year_2023/day05.rs:116-150 | the updated and preserved pieces of a non-empty range add up to its length; preserved pieces are non-empty, and so are updated ones for a rule of positive length |
| Year2023Day05.MapRangeMeaning | src/year_2023/day05.rs:116-150 | a non-empty range never makes no sense; covered values go exactly to their shift, uncovered ones stay, and the lengths add up |
| Year2023Day05.MapRange | src/year_2023/day05.rs:116-150 | a successful split leaves pieces that can be split again without underflow |
| Year2023Day05.ApplyRuleMeaning | src/year_2023/day05.rs:163-168 | one rule over the waiting pieces: a covered value leaves them and its shift is resolved as often as it waited, an uncovered value keeps waiting, no length is lost |
| Year2023Day05.FirstCoveringMeaning | src/year_2023/day05.rs:162-170 | the rule that takes a value is the first one covering it; none takes it exactly when no rule covers it |
| Year2023Day05.ApplyRulesMeaning | src/year_2023/day05.rs:159-170 | after the first rules, the waiting pieces hold each uncovered value of the range once, the resolved pieces hold each value as often as the range is sent there, and no length is lost |
| Year2023Day05.ProdMapMap | src/year_2023/day05.rs:159-173 | the nested loops give exactly the resolved pieces followed by the waiting ones, or the first error |
| Year2023Day05.SplitPieces | src/year_2023/day05.rs:164-168 | the inner loop appends each piece's updated parts to the resolved list and gathers its preserved parts in order |
| Year2023Day05.ProdMapMeaning | src/year_2023/day05.rs:159-173 | one map over a non-empty range never fails; every value turns up where its first covering rule sends it (unchanged when none covers it), so a mapped value is never remapped, and nothing else turns up |
| Year2023Day05.ProdMaps.Push | src/year_2023/day05.rs:175-194 | the rule is appended to its map, created empty if missing, and no other map changes |
| Year2023Day05.PushKeepsPositive | src/year_2023/day05.rs:186-194 | pushing a rule of positive length keeps every rule of every map of positive length |
| Year2023Day05.ProdMaps.Map | src/year_2023/day05.rs:196-212 | the seeds go through each present map in `next` order, a missing map leaving the pieces unchanged |
| Year2023Day05.MapEach | src/year_2023/day05.rs:201-204 | one map is applied to each piece in turn and the results joined, or the first error returned |
| Year2023Day05.MapThroughMeaning | src/year_2023/day05.rs:196-212 | the seven maps never fail, keep the total length, send every seed to the end of its chain and produce nothing that is not the end of some seed's chain |
| Year2023Day05.MinStartBelow | src/year_2023/day05.rs:253-257 | the kept minimum is at most every value the pieces hold |
| Year2023Day05.MinStartHeld | src/year_2023/day05.rs:253-257 | the kept minimum is the starting value or a value the pieces hold |
| Year2023Day05.Lowest | src/year_2023/day05.rs:251-268 | the loop keeps the smallest start of any piece, starting from `u64::MAX` |
| Year2023Day05.LowestMeaning | src/year_2023/day05.rs:251-268 | the lowest location is at most the location of every seed, and is the location of some seed unless it stayed `u64::MAX` |
| Year2023Day05.PairSpansAt | src/year_2023/day05.rs:260-262 | pair `k` starts at seed `2k` and is as long as seed `2k + 1`, an odd last seed being dropped |
| Year2023Day05.SeedSpans | src/year_2023/day05.rs:251-252 | every seed on its own is the range `seed .. seed + 1` |
| Year2023Day05.Solve | src/year_2023/day05.rs:251-268 | the two answers are the lowest locations over single seeds and over seed ranges |
| Year2023Day05.NearestSeed | src/year_2023/day05.rs:251-259 | the first answer is the smallest location of any seed, `u64::MAX` with no seeds |
| Year2023Day06.WinCountMeaning | src/year_2023/day06.rs:24-37 | the ways counted are exactly the holds `h` in `0 ..= time` with `h * (time - h)` above the champion's distance |
| Year2023Day06.Unimodal | src/year_2023/day06.rs:27-28 | the distance `h * (time - h)` rises then falls: a hold between two others travels at least as far as one of them |
| Year2023Day06.LossIsFinal | src/year_2023/day06.rs:29-33 | after a win, the first loss is followed only by losses |
| Year2023Day06.CountStops | src/year_2023/day06.rs:29-33 | stopping at the first loss after a win leaves the count of winning holds unchanged |
| Year2023Day06.FindWays | src/year_2023/day06.rs:24-37 | the loop with its early stop returns the number of winning holds in `0 ..= time` |
| Year2023Day06.WaysBounds | src/year_2023/day06.rs:24-37 | there are at most `time + 1` ways, and 0 exactly when no hold wins |
| Year2023Day06.WinCounted | src/year_2023/day06.rs:29-31 | any winning hold makes the count positive |
| Year2023Day06.WinWitness | src/year_2023/day06.rs:29-31 | a positive count has a winning hold behind it |
| Year2023Day06.Races | src/year_2023/day06.rs:70-74 | races pair times and distances by position, as many as the shorter list |
| Year2023Day06.ProductZero | src/year_2023/day06.rs:76 | the product of the ways is 0 exactly when some race cannot be won |
| Year2023Day06.DecimalValueConcat | src/year_2023/day06.rs:79-84 | appending digits multiplies the earlier value by ten per digit and adds theirs |
| Year2023Day06.JoinedValue | src/year_2023/day06.rs:79-84 | the joined decimal strings read back as the numbers written one after another |
| Year2023Day06.LongRaceMeaning | src/year_2023/day06.rs:78-85 | the long race's time and distance are the concatenated times and distances; it fails without races or when either exceeds `u64::MAX` |
| Year2023Day06.Solve | src/year_2023/day06.rs:76-86 | the product of the ways over all races, and the ways of the long race or its parse error |
| Year2023Day06.ExampleWays | src/year_2023/day06.rs:24-37 | a 7 ms race against 9 mm can be won in 4 ways |
| Year2023Day06.Times | src/year_2023/day06.rs:79 | the times in race order |
| Year2023Day06.Distances | src/year_2023/day06.rs:80-83 | the champion distances in race order |
| Year2023Day07.ParseCard | src/year_2023/day07.rs:28-45 | a parsed card is never the Joker; any other character fails with an error naming it |
| Year2023Day07.ParseCardMeaning | src/year_2023/day07.rs:28-45 | exactly the thirteen characters `2`-`9`, `T`, `J`, `Q`, `K`, `A` parse, each to the card at its place in that order |
| Year2023Day07.Symbol | src/year_2023/day07.rs:28-45 | every card other than the Joker has a character that parses back to it |
| Year2023Day07.ToAlt | src/year_2023/day07.rs:47-52 | only the Jack changes, to the Joker; no card becomes a Jack and none rises in rank |
| Year2023Day07.ParseCards | src/year_2023/day07.rs:77-79 | the cards parse exactly when every character does, each to its card; otherwise the error is that of the first bad character |
| Year2023Day07.FirstBadCard | src/year_2023/day07.rs:77-79 | parsing stops at the first character that is not a card, with that character's error |
| Year2023Day07.HandOfMeaning | src/year_2023/day07.rs:72-81 | a hand parses exactly when it is five card characters, and then its cards are the ones they name |
| Year2023Day07.ParseHand | src/year_2023/day07.rs:72-81 | a length other than five is an error; otherwise the five-slot buffer is filled card by card and the first bad character's error is returned |
| Year2023Day07.HandToAlt | src/year_2023/day07.rs:83-89 | the copied hand has each card replaced by its alternative: Jacks become Jokers, the rest stay |
| Year2023Day07.GroupFacts | src/year_2023/day07.rs:91-97 | every group of equal non-Joker cards holds at least one card and at most as many as the largest group |
| Year2023Day07.CoveredAll | src/year_2023/day07.rs:92-96 | every card is either a Joker or counted in exactly one non-Joker group |
| Year2023Day07.ClassifyTotal | src/year_2023/day07.rs:98-108 | for every five-card hand the number of groups and the Jokers plus the largest group hit one of the listed arms, so the panic arm is unreachable |
| Year2023Day07.FiveJokers | src/year_2023/day07.rs:99 | a hand of five Jokers is five of a kind |
| Year2023Day07.TallyAt | src/year_2023/day07.rs:92-95 | the counts map holds exactly the cards present, each with its number of occurrences |
| Year2023Day07.TallyGroups | src/year_2023/day07.rs:96-98 | once the Joker entry is removed, the map's length is the number of non-Joker groups |
| Year2023Day07.TallyLargest | src/year_2023/day07.rs:96-97 | the largest remaining count, or 0 when none remain, is the size of the largest non-Joker group |
| Year2023Day07.LargestValue | src/year_2023/day07.rs:97 | the value found is at least every count and is one of them, or 0 for an empty map |
| Year2023Day07.TallyCards | src/year_2023/day07.rs:92-95 | the counting loop builds the tally of the five cards |
| Year2023Day07.HandTypeOf | src/year_2023/day07.rs:91-109 | the hand type computed from the counts map is the classification of the hand's groups and Jokers |
| Year2023Day07.CompareCardsFlip | src/year_2023/day07.rs:120-129 | card-by-card comparison reversed gives the opposite outcome and is `Equal` only for equal cards |
| Year2023Day07.CompareCardsTransitive | src/year_2023/day07.rs:120-129 | card-by-card "less than" is transitive |
| Year2023Day07.CompareFlip | src/year_2023/day07.rs:118-134 | hand comparison reversed gives the opposite outcome; two hands compare `Equal` only when they are the same hand |
| Year2023Day07.CompareTransitive | src/year_2023/day07.rs:118-134 | hand "less than" is transitive, so the ordering is a total order |
| Year2023Day07.NotAfterTransitive | src/year_2023/day07.rs:118-134 | "sorts no later than" is transitive |
| Year2023Day07.CompareHands | src/year_2023/day07.rs:118-134 | hands compare by type first and, when the types tie, at the first card that differs (Joker lowest, Ace highest) |
| Year2023Day07.InsertAdds | src/year_2023/day07.rs:151 | inserting a hand adds exactly that entry |
| Year2023Day07.InsertSorted | src/year_2023/day07.rs:151 | inserting into sorted hands keeps them sorted |
| Year2023Day07.SortByHandSorted | src/year_2023/day07.rs:151 | after sorting, each hand sorts no later than every hand after it |
| Year2023Day07.SortByHandPermutes | src/year_2023/day07.rs:151 | sorting keeps exactly the same hands with the same bids |
| Year2023Day07.TotalWinnings | src/year_2023/day07.rs:151-168 | both totals are the sum of each bid times its position from 1 after sorting, the second after every Jack becomes a Joker |
| Year2024Day01.SortedAscending | src/year_2024/day01.rs:15-16 | a list kept sorted by its integer key is ascending |
| Year2024Day01.ReadLists | src/year_2024/day01.rs:15-22 | after every line is pushed, each list is ascending and holds exactly that column's numbers |
| Year2024Day01.DistanceZero | src/year_2024/day01.rs:24-27 | the summed distance of the first `n` pairs is zero exactly when the two lists agree there |
| Year2024Day01.TotalDistance | src/year_2024/day01.rs:24-28 | the zip stops at the shorter list and adds `abs_diff` of each pair in order |
| Year2024Day01.MatchedBeyond | src/year_2024/day01.rs:34-35 | right numbers above every left number add nothing, so stopping when the left list runs out loses nothing |
| Year2024Day01.SimilarityAsWritten | src/year_2024/day01.rs:30-49 | the merge advances the smaller side, on a tie adds the right number and advances only the right side, and returns the sum of the right numbers that occur on the left |
| Year2024Day01.DuplicateLeftUndercounts | src/year_2024/day01.rs:43-46 | with left `[3, 3]` and right `[3]` the merge adds 3 while the similarity score is 6 |
| Year2024Day01.CountRun | src/year_2024/day01.rs:43-46 | a value that fills exactly positions `a .. b` occurs `b - a` times |
| Year2024Day01.SimilarityBeyond | src/year_2024/day01.rs:34-35 | left numbers no right number equals add nothing to the score |
| Year2024Day01.SimilarityByRuns | src/year_2024/day01.rs:30-49 | the corrected merge returns the similarity score: each left number times its number of occurrences on the right |
| Year2024Day01.SimilarityAppendRight | src/year_2024/day01.rs:43-46 | one more right number adds itself once per occurrence on the left |
| Year2024Day01.CountDistinct | src/year_2024/day01.rs:43-46 | in a list without repeats a number occurs at most once |
| Year2024Day01.MatchedWhenDistinct | src/year_2024/day01.rs:30-49 | when the left list has no repeated number the merge as written computes the similarity score |
| Year2024Day01.Solve | src/year_2024/day01.rs:13-53 | the distance is summed over the two sorted columns, and the similarity is what the merge as written adds up over them |
| Year2024Day02.IsSafeLevels | src/year_2024/day02.rs:11-35 | the walk over adjacent pairs answers true exactly when every step rises by 1 to 3 or every step falls by 1 to 3 |
| Year2024Day02.ShortSafe | src/year_2024/day02.rs:15-17 | a report with fewer than two levels is safe |
| Year2024Day02.RisingTail | src/year_2024/day02.rs:11-35 | dropping the first level of a rising report keeps it rising |
| Year2024Day02.FallingTail | src/year_2024/day02.rs:11-35 | dropping the first level of a falling report keeps it falling |
| Year2024Day02.SafeWithoutFirst | src/year_2024/day02.rs:52-69 | a safe report stays safe with its first level left out |
| Year2024Day02.SkipSafeMeaning | src/year_2024/day02.rs:52-69 | a report with levels is counted for part two exactly when leaving out some level makes it safe |
| Year2024Day02.SkipLevelSafe | src/year_2024/day02.rs:58-69 | the skip loop finds a level to leave out exactly when some such omission yields a safe report |
| Year2024Day02.SafeCountBelow | src/year_2024/day02.rs:40-70 | the safe total never exceeds the skip-safe total, which never exceeds the number of reports |
| Year2024Day02.CountReports | src/year_2024/day02.rs:40-70 | the two totals are the number of safe and of skip-safe reports |
| Year2024Day04.XmasCounter.constructor | src/year_2024/day04.rs:12-17 | a new counter holds the window "...." and a zero count |
| Year2024Day04.XmasCounter.ResetCache | src/year_2024/day04.rs:19-21 | the window becomes "...." again and the count is kept |
| Year2024Day04.XmasCounter.Process | src/year_2024/day04.rs:23-42 | the window shifts left by one with the new character last, and the count rises by one exactly when the window then reads XMAS or SAMX, so it never falls |
| Year2024Day04.FeedStep | src/year_2024/day04.rs:23-42 | after feeding a line to a fresh window, the window holds the line's last four characters (padded with dots) and each character adds a count exactly when it ends an XMAS or SAMX reading; a window still holding a dot never matches |
| Year2024Day04.FeedNext | src/year_2024/day04.rs:23-42 | feeding the next character of a line moves the window and the count from one prefix to the next |
| Year2024Day04.MatchesCons | src/year_2024/day04.rs:30-41 | counted from the front, a character put before a line adds a reading exactly when it starts XMAS or SAMX |
| Year2024Day04.XmasReverse | src/year_2024/day04.rs:30-41 | a four-character window reads XMAS or SAMX exactly when its reverse does |
| Year2024Day04.ReverseCons | src/year_2024/day04.rs:61-126 | reversing a line with a character in front puts that character last |
| Year2024Day04.ReverseLastFour | src/year_2024/day04.rs:61-126 | the last four characters of a reversed line are its first four, reversed |
| Year2024Day04.MatchesReverse | src/year_2024/day04.rs:61-126 | a line and its reverse hold the same number of readings, so one sweep per direction also counts the readings running the other way |
| Year2024Day04.SouthEastAt | src/year_2024/day04.rs:76-97 | the k-th character of a south-east diagonal is k lines down and k columns right of its start |
| Year2024Day04.SouthWestAt | src/year_2024/day04.rs:99-126 | the k-th character of a south-west diagonal is k lines down and k columns left of its start |
| Year2024Day04.FreshWindow | src/year_2024/day04.rs:19-21 | a refilled window has seen none of the next line and counted nothing |
| Year2024Day04.SumMatchesStep | src/year_2024/day04.rs:61-126 | finishing one more line adds exactly that line's readings to a sweep's total |
| Year2024Day04.SweepRows | src/year_2024/day04.rs:61-67 | the row sweep adds the readings of every line and leaves a window of dots |
| Year2024Day04.SweepColumns | src/year_2024/day04.rs:68-74 | the column sweep adds the readings of every column and leaves a window of dots |
| Year2024Day04.WalkSouthEast | src/year_2024/day04.rs:78-85 | one south-east walk feeds its diagonal up to either edge and adds exactly that diagonal's readings |
| Year2024Day04.WalkSouthWest | src/year_2024/day04.rs:100-111 | one south-west walk feeds its diagonal, stopping after column 0 or the bottom line, and adds exactly that diagonal's readings |
| Year2024Day04.SweepSouthEast | src/year_2024/day04.rs:75-97 | the south-east sweep adds the readings of the diagonals from the top line and from the left column below it |
| Year2024Day04.SweepSouthWest | src/year_2024/day04.rs:98-126 | the south-west sweep adds the readings of the diagonals from the top line and from the right column below it |
| Year2024Day04.CornersMultiset | src/year_2024/day04.rs:136-138 | two corner pairs each read M/S in some order exactly when the four corners are two 'M's and two 'S's with the first pair different |
| Year2024Day04.XMasCorners | src/year_2024/day04.rs:129-143 | an X-MAS is an interior 'A' whose corners are two 'M's and two 'S's, with different letters at the two ends of one diagonal |
| Year2024Day04.CountXMas | src/year_2024/day04.rs:128-143 | the second count is the number of interior cells that centre an X-MAS |
| Year2024Day04.GridWidth | src/year_2024/day04.rs:54-59 | the width is the length of the longest line, and there is none exactly when the grid is empty |
| Year2024Day04.Solve | src/year_2024/day04.rs:48-146 | an empty grid fails; otherwise the first count is the readings over every row, column and diagonal and the second the X-MAS count |
| Year2024Day05.AddRule | src/year_2024/day05.rs:37-45 | recording `before|after` adds `after` as a key if missing, puts `before` in its set, and leaves every other page's set alone |
| Year2024Day05.RulesOfMeaning | src/year_2024/day05.rs:31-45 | after the rule lines, X is in the set of Y exactly when the rule X|Y was read |
| Year2024Day05.LastIndex | src/year_2024/day05.rs:62-74 | the search result is absent exactly when the page is not in the update, and otherwise indexes its last occurrence |
| Year2024Day05.LastIndexOf | src/year_2024/day05.rs:62-74 | the loop finds the last index holding the page |
| Year2024Day05.CheckOrder | src/year_2024/day05.rs:58-83 | `good_order` ends true exactly when no page has a required-before page whose last occurrence is later |
| Year2024Day05.GoodOrderMeaning | src/year_2024/day05.rs:58-83 | an update is in good order exactly when no page precedes a page it is required to follow |
| Year2024Day05.AbsentRuleIgnored | src/year_2024/day05.rs:62-80 | a rule whose required-before page is absent from an update does not change the verdict |
| Year2024Day05.CompareAntisymmetric | src/year_2024/day05.rs:88-100 | without two pages each required before the other, a pair the comparator puts one way it never also puts the other way |
| Year2024Day05.Insert | src/year_2024/day05.rs:88-100 | an insertion step grows the pages by one |
| Year2024Day05.SortPages | src/year_2024/day05.rs:88-100 | the re-sort keeps the number of pages, so the middle page exists |
| Year2024Day05.InsertAdds | src/year_2024/day05.rs:88-100 | an insertion step adds exactly the inserted page |
| Year2024Day05.SortPagesPermutes | src/year_2024/day05.rs:88-100 | the re-sorted update holds the same pages with the same multiplicities |
| Year2024Day05.InsertLast | src/year_2024/day05.rs:88-100 | after an insertion the last page is the inserted one or the former last |
| Year2024Day05.InsertOrdered | src/year_2024/day05.rs:88-100 | without two-cycles, inserting into neighbour-ordered pages keeps them neighbour-ordered |
| Year2024Day05.SortPagesOrdered | src/year_2024/day05.rs:88-100 | without two-cycles, no two neighbours of the re-sorted update are in the wrong order |
| Year2024Day05.TotalsStep | src/year_2024/day05.rs:84-102 | each update adds its middle page to exactly one of the two sums |
| Year2024Day05.ScoreUpdate | src/year_2024/day05.rs:84-102 | a good update contributes its own middle page; a bad one the middle page of its re-sort |
| Year2024Day05.FirstEmpty | src/year_2024/day05.rs:26-30 | the switch point is at most the number of lines |
| Year2024Day05.FirstEmptyMeaning | src/year_2024/day05.rs:26-30 | every line before the switch point has text, and the line at it is empty |
| Year2024Day05.ReadRules | src/year_2024/day05.rs:31-36 | reading the rule section fails only with the rule-format error |
| Year2024Day05.ReadUpdates | src/year_2024/day05.rs:50-57 | reading the page section fails only with the page-list error |
| Year2024Day05.RunRules | src/year_2024/day05.rs:25-47 | until the first empty line, `main` stays in rule mode with the table of the rules read, or fails at a rule line |
| Year2024Day05.UpdatesStateStep | src/year_2024/day05.rs:48-103 | one more line after the switch takes the expected state after the shorter input to the expected state after the longer one |
| Year2024Day05.RunUpdates | src/year_2024/day05.rs:25-105 | after the first empty line, `main`'s state is the rules read before it together with the sums over the updates read after it |
| Year2024Day05.RunOutcome | src/year_2024/day05.rs:25-105 | processing the lines one by one in their mode gives the declarative outcome: rules before the first empty line, updates after it |
| Year2024Day05.RunFails | src/year_2024/day05.rs:34-57 | once a line fails, `main` has failed with that line's error |
| Year2024Day05.StopsAt | src/year_2024/day05.rs:34-57 | a failing line ends `main` with that failure |
| Year2024Day05.Completes | src/year_2024/day05.rs:25-108 | reading every line without failure ends in the outcome's two sums |
| Year2024Day05.Solve | src/year_2024/day05.rs:19-109 | `main` returns the outcome: the first failing line's error, or the sum of the middle pages of good updates and of re-sorted bad ones |
| Year2024Day06.GuardMap.constructor | src/year_2024/day06.rs:23-28 | a new map has no tiles and maximum (0, 0), which satisfies the maximum invariant |
| Year2024Day06.GuardMap.Insert | src/year_2024/day06.rs:30-38 | the tile is stored at the position and `max` becomes the componentwise larger of the old maximum and the position, so `max` stays the componentwise maximum of the tile positions (`Valid`) |
| Year2024Day06.FitsUnique | src/year_2024/day06.rs:30-38 | the tile positions determine the maximum that `insert` keeps: two maxima that both fit the same tiles are equal |
| Year2024Day06.GuardMap.Clone | src/year_2024/day06.rs:16-20 | the clone is a fresh map with the same tiles and maximum |
| Year2024Day06.Get | src/year_2024/day06.rs:40-42 | a position without a tile reads as Empty |
| Year2024Day06.GetUpdate | src/year_2024/day06.rs:40-42 | after putting a tile at one position, `get` reads that tile there and what it read before everywhere else |
| Year2024Day06.Step | src/year_2024/day06.rs:46-53 | the step yields a point exactly when the point `mag` cells away in the heading has both coordinates in the `usize` range (checked subtraction and addition), and then it is that point |
| Year2024Day06.StepBack | src/year_2024/day06.rs:46-53 | a step that succeeds is undone by the same step in the opposite heading |
| Year2024Day06.NextMeaning | src/year_2024/day06.rs:70-88 | the guard's step fails exactly when the cell ahead lies outside 0..=max in either coordinate; otherwise the guard moves one cell ahead onto an Empty tile, or turns right in place before an Obstruction |
| Year2024Day06.ExecutePathing | src/year_2024/day06.rs:97-109 | the result is Looped exactly when some walk of the guard comes back to a (position, heading) state; otherwise it is Exited with exactly the states of the walk that leaves the map, none repeated |
| Year2024Day06.WalksAgree | src/year_2024/day06.rs:97-109 | two walks from the same start agree state by state, since the guard's step is deterministic |
| Year2024Day06.LeavesLongest | src/year_2024/day06.rs:97-109 | no walk is longer than the walk that ends with the guard leaving the map |
| Year2024Day06.LeavesNoLoop | src/year_2024/day06.rs:97-109 | a walk that leaves the map without repeating a state rules out every loop, which makes Looped and Exited exclusive |
| Year2024Day06.NextInBox | src/year_2024/day06.rs:70-88 | a step keeps the guard on a map cell or at its start position, so the states are finitely many and `execute_pathing` terminates |
| Year2024Day06.UniqueLocations | src/year_2024/day06.rs:111-117 | the count is the number of distinct positions among the visited states |
| Year2024Day06.PositionsBound | src/year_2024/day06.rs:111-117 | there are no more distinct positions than visited states |
| Year2024Day06.TryBlock | src/year_2024/day06.rs:159-164 | walking a clone of the map with one more obstruction loops exactly when the guard loops on the map with that cell obstructed |
| Year2024Day06.CountLoops | src/year_2024/day06.rs:149-166 | the loop count is the number of distinct empty on-map cells in front of a visited state whose obstruction makes the guard loop; each cell is tried once however many states face it |
| Year2024Day06.LoopingStep | src/year_2024/day06.rs:153-158 | a visited state whose cell ahead was already tried, or is not a candidate, changes neither the tried cells nor the count; a new candidate cell adds one to the count exactly when it traps the guard |
| Year2024Day06.LoopingBound | src/year_2024/day06.rs:149-166 | the loop count is at most the number of cells tried, which is at most the number of visited states |
| Year2024Day06.LastCaretMeaning | src/year_2024/day06.rs:137-139 | the last `^` index is absent exactly when the row prefix has no `^`, and no `^` follows it |
| Year2024Day06.StartBeforeMeaning | src/year_2024/day06.rs:124-143 | the guard starts on the last `^` in row-major order, facing North, and at (0, 0) when the grid has no `^` |
| Year2024Day06.ReadCell | src/year_2024/day06.rs:129-141 | `#` adds an Obstruction and `.` an Empty tile at (x, y), `^` moves the guard there without adding a tile, and any other character fails with that character |
| Year2024Day06.Load | src/year_2024/day06.rs:124-143 | reading fails exactly when the grid holds a character other than `#`, `.` and `^`, with the first such character; otherwise the map holds exactly the `#` and `.` cells with their tiles, its maximum fits them, and the guard stands on the last `^` |
| Year2024Day06.LoadedUnique | src/year_2024/day06.rs:124-143 | the grid determines the tiles and the maximum read from it |
| Year2024Day06.Solve | src/year_2024/day06.rs:122-172 | an unexpected character is an error exactly when the grid is invalid; a loop on the map as read is an error exactly when the guard loops; otherwise the answers are the number of distinct positions of the walk that leaves and the number of cells whose obstruction traps the guard |
| Year2025Day01.QuotRem | src/year_2025/day01.rs:31-32 | the `i32` quotient and remainder by 100 recompose the reading, the remainder below 100 in size and of the reading's sign |
| Year2025Day01.Turn | src/year_2025/day01.rs:22-39 | after one line the dial lies in 0..100 at the old reading plus the turn modulo 100, `count` grows exactly when it rests at 0, and `count_new` grows by the source's pass count |
| Year2025Day01.RunFails | src/year_2025/day01.rs:18-30 | the lines fail exactly when some line's direction is neither `L` nor `R` |
| Year2025Day01.RunMeaning | src/year_2025/day01.rs:14-39 | without a fault the dial reads 50 plus the signed turns modulo 100, and `count` is the number of lines after which it rests at 0 |
| Year2025Day01.Solve | src/year_2025/day01.rs:12-45 | `main` fails exactly on an unknown direction and otherwise returns both counters of the line-by-line fold |
| Year2025Day01.ZeroClicksCount | src/year_2025/day01.rs:31-36 | the clicks at 0 of one turn, counted click by click, equal the closed form used as the corrected pass count |
| Year2025Day01.PassesAsWrittenClosed | src/year_2025/day01.rs:31-36 | the source's pass count agrees with the clicks at 0 on right turns and counts the hundreds below 0 rounded up on left turns |
| Year2025Day01.LandingFromLeftMissed | src/year_2025/day01.rs:31-36 | from 50, `L50` then `R5` add nothing to `count_new` although the dial pointed at 0 once |
| Year2025Day01.LeavingLeftCounted | src/year_2025/day01.rs:31-36 | from 0, `L5` adds one pass to `count_new` although the dial never returns to 0 |
| Year2025Day02.HighStep | src/year_2025/day02.rs:19 | dividing the high part by 10 peels one more digit from `n` |
| Year2025Day02.LowStep | src/year_2025/day02.rs:18 | adding the last digit of the high part times `factor` extends the low part by one digit |
| Year2025Day02.Peel | src/year_2025/day02.rs:13-22 | the first loop stops at the first digit count where the high part no longer exceeds the low part, with `left`/`right` the parts above and below that many low digits |
| Year2025Day02.StrictBefore | src/year_2025/day02.rs:17-22 | for a block written twice the loop cannot stop before the block's length |
| Year2025Day02.StopDecides | src/year_2025/day02.rs:23-30 | where the loop stops, equal parts with as many digits as were peeled hold exactly when the decimal form has equal halves |
| Year2025Day02.TwiceDecimal | src/year_2025/day02.rs:23-28 | a `k`-digit block written twice has the decimal form of the block twice |
| Year2025Day02.HalvesTwice | src/year_2025/day02.rs:23-28 | a decimal form with equal halves is its high part written twice, the high part having half the digits |
| Year2025Day02.IsInvalid | src/year_2025/day02.rs:9-31 | `is_invalid` holds exactly when the decimal form of the id is a block written twice (never below 10) |
| Year2025Day02.TwoDigitHalves | src/year_2025/day02.rs:9-31 | a two-digit id is invalid exactly when its two digits agree |
| Year2025Day02.FourDigitHalves | src/year_2025/day02.rs:9-31 | a four-digit id is invalid exactly when its upper and lower two digits agree |
| Year2025Day02.IsInvalidValidExamples | src/year_2025/day02.rs:103-112 | 0, 1, 9, 10, 12, 21, 100, 101 and 1000 are not invalid |
| Year2025Day02.IsInvalidInvalidExamples | src/year_2025/day02.rs:103-113 | 11, 22, 66 and 1010 are invalid |
| Year2025Day02.ChunksRepeat | src/year_2025/day02.rs:42-49 | every later chunk equals the first exactly when the rest of the string is the first chunk repeated |
| Year2025Day02.ChunksMatch | src/year_2025/day02.rs:42-49 | the chunk loop ends matching exactly when every chunk equals the first |
| Year2025Day02.ScanBlocks | src/year_2025/day02.rs:39-55 | the scan finds a block length below the bound that divides the length and repeats, exactly when one exists |
| Year2025Day02.IsInvalidPatternedAsWritten | src/year_2025/day02.rs:33-56 | as written, the scan tries only block lengths below `len / 2` |
| Year2025Day02.ThreeDigitsMissed | src/year_2025/day02.rs:39 | `111` is `1` three times, yet it is neither invalid nor found by the scan as written |
| Year2025Day02.AsWrittenAgrees | src/year_2025/day02.rs:39-88 | apart from three-digit ids, `is_invalid` together with the scan as written finds exactly the repeated blocks |
| Year2025Day02.IsInvalidPatterned | src/year_2025/day02.rs:33-56 | with block lengths up to `len / 2`, the check holds exactly when the decimal form is a repeated block |
| Year2025Day02.RepeatedBlockMeaning | src/year_2025/day02.rs:39-53 | a matching block length up to half the length makes the string that block written two or more times |
| Year2025Day02.RepeatIsBlock | src/year_2025/day02.rs:39-53 | any block written two or more times is found as a repeated block |
| Year2025Day02.HalvesRepeated | src/year_2025/day02.rs:83-85 | an invalid id is also patterned-invalid, so adding it to both sums is consistent |
| Year2025Day02.SumSpan | src/year_2025/day02.rs:82-89 | over one range `from ..= to`, the first sum adds the invalid ids and the second the ids that are invalid or found by the scan as written |
| Year2025Day02.SumInvalid | src/year_2025/day02.rs:62-90 | `main`'s sums are the totals over all ranges of the invalid ids and of the ids that are invalid or found by the scan as written |
| Year2025Day02.TotalBelow | src/year_2025/day02.rs:82-89 | over all ranges, the sum of invalid ids never exceeds `main`'s patterned sum, which never exceeds the sum of repeated blocks |
| Year2025Day02.TotalAgrees | src/year_2025/day02.rs:82-89 | when no id of the ranges has three digits, `main`'s patterned sum is the sum of repeated blocks |
| Year2025Day02.ThreeDigitSpan | src/year_2025/day02.rs:39 | on the range `111-111`, `main`'s patterned sum is 0 where the sum of repeated blocks is 111 |
| Year2025Day03.CharDigitMeaning | src/year_2025/day03.rs:9-23 | `char_u32` accepts exactly '0' to '9', each as its value below 10, inverts writing a digit, and reports any other character |
| Year2025Day03.FirstBad | src/year_2025/day03.rs:26-36 | the first character of a bank that is not a digit, with every earlier one a digit |
| Year2025Day03.MaxUpToBounds | src/year_2025/day03.rs:35-46 | the reference largest digit bounds every earlier digit |
| Year2025Day03.MaxUpToAttained | src/year_2025/day03.rs:35-46 | the reference largest digit is one of the digits |
| Year2025Day03.BestUpToAttained | src/year_2025/day03.rs:35-48 | the reference joltage is `10 * d[i] + d[j]` for some `i < j` |
| Year2025Day03.BestUpToBounds | src/year_2025/day03.rs:35-48 | the reference joltage bounds every `10 * d[i] + d[j]` with `i < j` |
| Year2025Day03.LargestUnique | src/year_2025/day03.rs:25-48 | the largest pair value of a bank is unique |
| Year2025Day03.JoltageLargest | src/year_2025/day03.rs:25-48 | a bank's joltage, when it has one, is the largest two-digit number formed by two of its batteries in order |
| Year2025Day03.Scan | src/year_2025/day03.rs:35-48 | the update keeps `tens`/`ones` as the best pair so far, whose larger digit is the largest digit so far, and fails at the first non-digit |
| Year2025Day03.MaxJoltage | src/year_2025/day03.rs:25-49 | `max_joltage` reports the first non-digit, then fewer than two batteries, and otherwise returns the largest pair |
| Year2025Day03.JoltageBy | src/year_2025/day03.rs:25-48 | the first largest digit before the last, followed by the largest digit after it, is the joltage |
| Year2025Day03.JoltageExample1 | src/year_2025/day03.rs:75 | `987654321111111` has joltage 98 |
| Year2025Day03.JoltageExample2 | src/year_2025/day03.rs:76 | `811111111111119` has joltage 89 |
| Year2025Day03.JoltageExample3 | src/year_2025/day03.rs:77 | `234234234234278` has joltage 78 |
| Year2025Day03.JoltageExample4 | src/year_2025/day03.rs:78 | `818181911112111` has joltage 92 |
| Year2025Day03.TotalFails | src/year_2025/day03.rs:57-60 | the total fails exactly when some bank has no joltage |
| Year2025Day03.TotalStops | src/year_2025/day03.rs:57-60 | once a prefix of the banks fails, the total fails with the same fault |
| Year2025Day03.Solve | src/year_2025/day03.rs:52-65 | `main` sums the banks' joltages in order and stops at the first bank in error |
| Year2025Day04.IsRemovable | src/year_2025/day04.rs:16-34 | `is_removable` holds exactly when fewer than four of the eight cells around the roll hold rolls; the window is clamped at row and column 0, and the count stops at four |
| Year2025Day04.FindRemovable | src/year_2025/day04.rs:36-47 | `find_removable` lists exactly the rolls within the extents that are removable, each once, in row-major order, so its length is their number |
| Year2025Day04.IncreasingCard | src/year_2025/day04.rs:36-47 | a row-major increasing list repeats no cell, so its length counts its cells |
| Year2025Day04.Load | src/year_2025/day04.rs:53-67 | the load collects exactly the `@` cells, and the extents reach the last row and the largest column index of any line, from (0, 0) |
| Year2025Day04.RemoveAll | src/year_2025/day04.rs:75-77 | the removal loop takes exactly the listed rolls away |
| Year2025Day04.Solve | src/year_2025/day04.rs:68-79 | the first answer is the number of rolls removable at first; the second is the number of rolls the rounds take away until none within the extents is removable |
| Year2025Day04.RemovableStays | src/year_2025/day04.rs:16-34 | removing rolls keeps a removable roll removable |
| Year2025Day04.SettleStable | src/year_2025/day04.rs:72-79 | the rounds end on a subset of the rolls in which no roll within the extents is removable |
| Year2025Day04.SettleKeepsOutside | src/year_2025/day04.rs:38-39 | rolls outside the extents are never removed |
| Year2025Day04.SettleRemovesAvailable | src/year_2025/day04.rs:69-79 | every roll counted as available is removed by the end |
| Year2025Day04.SettleIdempotent | src/year_2025/day04.rs:72-79 | running the rounds again on what is left removes nothing |
| Year2025Day05.ValidSorted | src/year_2025/day05.rs:76-138 | a list of disjoint ranges in increasing order, as the insertion keeps it, is sorted by lower bound |
| Year2025Day05.IsFresh | src/year_2025/day05.rs:21-32 | `is_fresh` only answers true for an id some range holds, and on ranges sorted by lower bound it answers true exactly for those ids, despite stopping at the first range that starts above the id |
| Year2025Day05.MergeAdjacent | src/year_2025/day05.rs:34-58 | `merge_adjacent` keeps the ranges before and at `i`, drops the ranges after `i` that the widened range swallows, and either stops before a range that starts above its high end or takes over the high end of the one range it overlaps |
| Year2025Day05.MergeValid | src/year_2025/day05.rs:34-58 | after a merge the list is again disjoint and increasing, and the range at `i` only grew |
| Year2025Day05.MergeCoversFrom | src/year_2025/day05.rs:34-58 | every id the merged list holds was held before the merge |
| Year2025Day05.MergeCoversTo | src/year_2025/day05.rs:34-58 | every id held before the merge is still held after it |
| Year2025Day05.MergeKeeps | src/year_2025/day05.rs:34-58 | a merge keeps the list disjoint and increasing and holds exactly the same ids |
| Year2025Day05.InsertBefore | src/year_2025/day05.rs:84-88 | the "less than" arm puts the new range in front of the first range that starts above it, and the list then holds the old ids plus those of the new range, still disjoint and increasing |
| Year2025Day05.LowerArm | src/year_2025/day05.rs:93-103 | the "overlapping low" arm lowers the start of the range it overlaps, which adds exactly the new range's ids and keeps the order |
| Year2025Day05.ContainedArm | src/year_2025/day05.rs:112-121 | the "contained" arm changes nothing, and the ids held already include the new range |
| Year2025Day05.MergeArm | src/year_2025/day05.rs:104-132 | the "containing" and "overlapping high" arms widen a range and merge forward, which adds exactly the new range's ids and keeps the list disjoint and increasing |
| Year2025Day05.Insert | src/year_2025/day05.rs:76-138 | inserting a well-formed range into a disjoint increasing list yields a disjoint increasing list holding exactly the old ids and the new range's ids |
| Year2025Day05.IntervalSize | src/year_2025/day05.rs:152 | a range from `low` to `high` holds `high - low + 1` ids |
| Year2025Day05.IdsCovers | src/year_2025/day05.rs:150-153 | the ids of the ranges are exactly those some range holds |
| Year2025Day05.SameIds | src/year_2025/day05.rs:150-153 | two lists that hold the same ids have the same set of ids |
| Year2025Day05.SizeCounts | src/year_2025/day05.rs:150-153 | on disjoint ranges the sum of `high - low + 1` is the number of distinct fresh ids |
| Year2025Day05.CountIds | src/year_2025/day05.rs:150-153 | the final loop sums the sizes of the ranges, which on the merged list is the number of distinct fresh ids |
| Year2025Day05.BlankFrom | src/year_2025/day05.rs:68-71 | the ranges section ends at the first blank line, or at the end of the input |
| Year2025Day05.InputRanges | src/year_2025/day05.rs:72-75 | the ranges read are the parsed ranges of the lines before the blank line, in order |
| Year2025Day05.InputStep | src/year_2025/day05.rs:72-138 | each range line adds exactly its range's ids to those of the input so far |
| Year2025Day05.Solve | src/year_2025/day05.rs:61-153 | `main` fails exactly when some line is faulty, with the first fault: a range line that does not parse, a blank line among the ingredients, or an ingredient that does not parse; otherwise, when every input range has `low <= high`, it returns the number of ingredient lines whose id some input range holds and the number of distinct ids the input ranges hold |
| Year2025Day07.NextRow | src/year_2025/day07.rs:15-48 | the row below has the width of the wider of the row above and the line, and each column's count is given by the column-wise rule: `S` gives 1, `^` gives 0, anything else keeps the count from above plus what a splitter on its left sent (only inside the old width), and every column adds what a splitter on its right sent |
| Year2025Day07.Propagate | src/year_2025/day07.rs:15-48 | reading one line character by character, resizing and updating the copied row in place, yields exactly the column-wise next row and the number of splitters a beam reached; it fails exactly when some character is not `.`, `S` or `^`, naming the first one |
| Year2025Day07.DotsCarry | src/year_2025/day07.rs:24-27 | a line of `.` carries every count straight down, widening the row with empty columns |
| Year2025Day07.SpawnAndShadow | src/year_2025/day07.rs:28-34 | an `S` column holds one timeline and a `^` column none, unless a splitter to its right adds to it |
| Year2025Day07.SplitsAddTimelines | src/year_2025/day07.rs:32-44 | in a row without spawn points whose splitters stand apart inside the width, the timelines below are those above plus one copy of each split beam's count |
| Year2025Day07.Solve | src/year_2025/day07.rs:10-60 | `main` returns the splits over all lines and the sum of the last row's counts, computed line by line from an empty row, or the first unexpected character of the first line holding one |
| Year2025Day08.SquareIsProduct | src/year_2025/day08.rs:18-22 | the sum-of-odd-numbers square equals `pow(2)`, the number times itself |
| Year2025Day08.DistanceShape | src/year_2025/day08.rs:18-22 | `abs_distance` is symmetric and is zero exactly between equal points |
| Year2025Day08.RowAt | src/year_2025/day08.rs:56-63 | the distances from point `j` to the earlier points come in their order, one per earlier point, each with `a = j`, `b` the earlier point and their distance |
| Year2025Day08.PairListSlots | src/year_2025/day08.rs:47-65 | the list of all distances has `n (n - 1) / 2` entries and holds the pair `(j, i)`, `i < j`, at a fixed position, with its distance |
| Year2025Day08.MeasureTo | src/year_2025/day08.rs:55-64 | the inner loop appends exactly the distances from the new point to every earlier point, in order |
| Year2025Day08.Measure | src/year_2025/day08.rs:45-65 | the reading loop builds exactly the list of all pairs' distances |
| Year2025Day08.PairsAreEdges | src/year_2025/day08.rs:55-63 | every measured entry joins two distinct boxes, the newer first, and carries their distance |
| Year2025Day08.SortAscending | src/year_2025/day08.rs:66 | `sort_unstable` with the derived order: the same distances (as a multiset), ascending by distance, then `a`, then `b` |
| Year2025Day08.LinkedGrows | src/year_2025/day08.rs:73-144 | a connection never comes undone: boxes joined after `j` connections stay joined after more |
| Year2025Day08.SomeCompletes | src/year_2025/day08.rs:73-144 | if the boxes start apart and are all joined after `m` connections, some connection before `m` is the one that first joins them all |
| Year2025Day08.TracksFresh | src/year_2025/day08.rs:82-96 | two boxes in no circuit starting a new one keeps `point_to_circuit` equal to "joined by the connections so far" |
| Year2025Day08.TracksJoin | src/year_2025/day08.rs:97-108 | a box in no circuit joining its partner's circuit keeps the map equal to "joined so far" |
| Year2025Day08.TracksMerge | src/year_2025/day08.rs:109-123 | remapping every box of circuit `b` to circuit `a` keeps the map equal to "joined so far" |
| Year2025Day08.TracksSame | src/year_2025/day08.rs:109-110 | a connection inside one circuit changes nothing that is joined |
| Year2025Day08.Full | src/year_2025/day08.rs:95-122 | a duplicate-free circuit of boxes below `n` has at most `n` members, and has `n` exactly when it holds every box |
| Year2025Day08.DoneMeans | src/year_2025/day08.rs:95-122 | a circuit's length equals the number of points exactly when the connections so far join every box |
| Year2025Day08.ValidFill | src/year_2025/day08.rs:82-96 | filling an empty, non-reusable circuit with two unmapped boxes keeps the circuits, the reusable list and the map consistent |
| Year2025Day08.ValidJoin | src/year_2025/day08.rs:97-108 | pushing an unmapped box onto a circuit and mapping it there keeps the state consistent |
| Year2025Day08.ValidMerge | src/year_2025/day08.rs:109-128 | appending circuit `b` to circuit `a`, clearing `b`, marking it reusable and remapping `a`'s members keeps the state consistent, maps exactly the boxes of `b` to `a` and leaves every other box where it was |
| Year2025Day08.Join | src/year_2025/day08.rs:76-128 | one pass of the loop keeps the state consistent and equal to "joined by the connections so far", and reports `done` exactly when this connection is the first to join every box |
| Year2025Day08.Descending | src/year_2025/day08.rs:130-134 | `sorted_unstable().rev()` gives the same sizes, largest first |
| Year2025Day08.TopLargest | src/year_2025/day08.rs:130-136 | `take(3)` keeps three sizes (fewer if there are fewer circuits) from the list, and no size left behind exceeds a kept one |
| Year2025Day08.CircuitIsClass | src/year_2025/day08.rs:69-128 | a non-empty circuit holds exactly the boxes joined to any one of its members |
| Year2025Day08.Connect | src/year_2025/day08.rs:69-146 | the "No circuits" error is never taken; the first answer is the product of the three largest circuit sizes after the thousandth connection, or 0 when the loop stops earlier; the second answer exists exactly when some connection first joins every box, and is the product of that connection's two x coordinates |
| Year2025Day08.CompleteJoins | src/year_2025/day08.rs:55-63 | when every pair of boxes is a connection, the connections join every box |
| Year2025Day08.Solve | src/year_2025/day08.rs:41-149 | `main` sorts the connections ascending, never fails after parsing, and with at least two boxes always finds the connection that first joins them all |
| Year2025Day09.AreaShape | src/year_2025/day09.rs:23-25 | the area is the same whichever corner comes first, is at least one, and is one exactly when the two corners are the same tile |
| Year2025Day09.CompareTotal | src/year_2025/day09.rs:28-37 | the order of `partial_cmp` is total: it answers Equal only for equal rectangles, swapping the arguments flips the answer, and Less is transitive |
| Year2025Day09.CompareArea | src/year_2025/day09.rs:28-37 | a larger area always compares greater, and a rectangle that compares less never has the larger area |
| Pairs.StartCount | src/year_2025/day09.rs:57-62 | `n` tiles give `n (n - 1) / 2` rectangles |
| Pairs.SlotInverse | src/year_2025/day09.rs:57-62 | every position of the rectangle list belongs to some pair of tiles |
| Year2025Day09.ZoneListSlots | src/year_2025/day09.rs:49-79 | the list of all rectangles has `n (n - 1) / 2` entries and holds the rectangle of tiles `j` and `i`, `i < j`, at that pair's fixed position, newer tile first |
| Year2025Day09.Spawn | src/year_2025/day09.rs:57-62 | the inner loop appends exactly the rectangles of the new tile with every earlier tile, in order |
| Year2025Day09.Zones | src/year_2025/day09.rs:49-79 | the loop builds exactly the list of all pairs' rectangles, each with the newer tile as first corner and at that pair's position; the outline joins each tile to the next and the last tile back to the first, one edge per tile |
| Year2025Day09.Greatest | src/year_2025/day09.rs:82-87 | after the sort and the reversal, the first rectangle is one of the list that no rectangle of the list compares above |
| Year2025Day09.Solve | src/year_2025/day09.rs:42-88 | `main` fails with "No Red Zones" exactly when there are fewer than two tiles, and otherwise answers the area of some pair's rectangle that no pair's rectangle exceeds |

## Left out

- Input and output are not modelled: reading the puzzle input from files or over HTTP (`src/input.rs`, `src/util/input.rs`), the command-line dispatch in `src/main.rs` and `src/day.rs`, and every `println!`. Each day's `main` is modelled from its parsed input to the values it prints.
- MD5 hashing is a foreign call and is not modelled. This leaves out 2015 day 4 and 2016 day 5 entirely, and in 2016 day 14 `calculate_md5_hash` and `index_of_64th`: the triple and five-in-a-row scans are modelled over a given sequence of hashes.
- Regular-expression parsing (`regex_captures!`, `regex!`) and the days made only of regular expressions (2015 day 5, 2024 day 3, 2025 day 6) are not modelled. Instructions arrive already parsed as datatypes, and a line the expression would reject is not represented.
- 2015 day 15 only parses and prints, so it is not modelled.
- `serde_json` parsing (2015 day 12) is not modelled; the model starts from a JSON value datatype. Library internals are modelled by their specification: itertools `powerset`, `sorted_unstable` and `join`; `integer_sqrt`; the iteration order of `HashMap` and `HashSet`, which is replaced by an arbitrary choice (`:|`) or by insertion order.
- Point `to_index` (src/data/point.rs:84-94) refers to a `dimensions` value that is not defined there, so it is not modelled. The grids of 2015 days 6 and 18 use a row-major index of their own, and `from_index` is commented out in the source.
- Expand.Expand: modelled on values (the padded vector is returned) rather than resizing the caller's vector in place.
- `expand_with` (used by 2023 day 4) is not part of this model; it is modelled as "grow to at least the given length, filling with 1".
- Machine-integer widths are unbounded in most of the model. Where Rust would panic on overflow, the model either requires the values to stay in range or leaves the width unmodelled:
  - `Point2D` coordinates and `next_x` in the iterator;
  - the floor and position counters of 2015 days 1 to 3;
  - the `u32` dials of 2015 day 6;
  - the `i32` registers of 2016 day 12;
  - the dial of 2025 day 1;
  - the sums of 2015 day 2, 2016 day 4 (`sector_sum`) and 2023 days 1 to 7;
  - the `usize` winnings of 2023 day 7;
  - the `u32` values and the distance and similarity totals of 2024 day 1, the report counts of 2024 day 2, the `u32` match count of 2024 day 4 and the page sums of 2024 day 5;
  - the `usize` positions and the visited and loop counts of 2024 day 6;
  - the `u64` ids and both sums of 2025 day 2, the joltage total of 2025 day 3, the `usize` grid positions and removal count of 2025 day 4, and the `u64` ingredient ids and the available and fresh-id counts of 2025 day 5;
  - the `u64` beam counts of 2025 day 7 (`tachyon_scan`, `split_count`, `timeline_count`);
  - the `u64` coordinates and squared distances of 2025 day 8 and its `usize` product of the largest circuit sizes;
  - the `u64` coordinates and rectangle areas of 2025 day 9.
- Year2016Day03.GoodTriangle requires the three sides to sum to at most `u32::MAX`, because the source's addition would overflow.
- Year2016Day03.CountTriangles requires every side of every line to be at most `u32::MAX / 3` (`InRange`). This bound is stronger than the source needs: it overflows only when a triple it tests, a line or a column of three lines, sums past `u32::MAX`. The per-side bound keeps every such sum in range without describing which triples are tested.
- Year2016Day06.ErrorCorrect requires fewer than `u32::MAX` lines, because the per-column counters are `u32`.
- Year2016Day13: `is_wall` is modelled for coordinates up to `usize::MAX` (`InGrid`); the source's `x*x + 3*x + …` overflows earlier for large coordinates, and that overflow is not modelled.
- Year2016Day15: the discs must have at least one position each, since the source divides by the position count. The search for a drop time is bounded by the discs' common period.
- Year2015Day08.ScanLine requires a non-empty line, because the source computes `line.len() - 1`, which panics on an empty line. It also counts characters where the source's `len` counts bytes; the two agree on ASCII input only.
- Year2015Day25.CodeAtAsWritten requires a row and a column of at least 1 and a target other than (1, 1). The diagonal iterator never yields a zero coordinate and, as written, the loop never compares (1, 1) (see Findings). On such targets the source's loop does not stop until the iterator's `usize` arithmetic overflows.
- OrderedVec: `Ord` is modelled by a key function into pairs of integers ordered lexicographically, rather than by an arbitrary total order.
- OrderedVec.OrderedVec.Remove requires `index < |items|`: `Vec::remove` panics on an index past the end (src/util/ordered_vec.rs:80).
- OrderedVec.BinarySearch: which index is returned among equal elements follows one version of Rust's `slice::binary_search` (the halving loop); the standard library does not promise it. PriorityQueue.QueueExample depends on this choice.
- AStar.Search: costs are natural numbers, so negative costs are not modelled; this is what keeps the start out of `came_from` and makes path reconstruction terminate. The main loop runs with a fuel bound, and a run that spends it reports `OutOfFuel`.
- AStar.Search states least cost only for an admissible heuristic (`Admissible`), the condition under which A* promises it; with any other heuristic only the walk properties are stated.
- Year2016Day13.Route: the example's 11-step answer is not computed from the search. The example route is checked separately: it is an open walk of 11 steps, and Route's least-step guarantee applies to it.
- Fuel bounds stand in for loops and recursions whose termination depends on the input. A run that exhausts the fuel reports that it stopped, and the model says nothing about such a run. Fuel is used in:
  - `AStar.Search`;
  - the path search of 2015 day 9;
  - the password search of 2015 day 11;
  - the reverse search of 2015 day 19;
  - the mana search of 2015 day 22;
  - the interpreters of 2015 day 23 and 2016 day 12;
  - the bot evaluation of 2016 day 10;
  - the state search of 2016 day 11.
- Year2015Day07.Gate: a shift by 16 or more is an error, standing for the overflow panic of a debug build. A release build masks the shift amount to its low four bits instead, and that behaviour is not modelled.
- Year2015Day07.Execute: the circuit must be acyclic (`Ranked`); on a circuit with a loop the source recurses until the stack overflows.
- Year2015Day19.StepsToElectron: only soundness is proved (a reported count is a real sequence of reverse replacements), not minimality.
- Year2015Day22.FindBestManaPath: the least mana is promised only when the queue ran empty within the fuel (`exhausted`); a run that spends its fuel promises only that the answer is a real win or `u32::MAX`.
- Year2016Day11.MinimumSteps: minimality is not proved. Only soundness is: a reported count is the length of a sequence of valid moves that ends in the complete state. Minimality does not hold as written, because the as-written normalisation merges inequivalent states (Year2016Day11.AsWrittenMergesFloors). A run that reports `Exhausted` is not described. It also requires a non-empty elevator floor in the start state, because `move_each` computes `floor_len - 1` (src/year_2016/day11.rs:130), which underflows and panics on an empty floor.
- Year2025Day05.Solve states the two counts only when every input range has `low <= high`. The source does not check this. On a range such as `5-3`, its final `high - low + 1` underflows, which panics in a debug build, and the insertion arms were not written for such a range. The error cases are stated for every input.
- Year2015Day11.IncludesStraight requires at least two characters: the source's `password.len() - 2` underflows and panics on a shorter password.
- Year2015Day11.IsGoodPassword requires at least two characters, because it calls `includes_straight`, which panics on a shorter password.
- Year2015Day11.NextGoodPasswords requires a start of at least two characters: the first `is_good_password` call panics on a shorter one.
- Year2015Day18.Load requires at most 10000 characters: the source writes each character into a fixed array of 100 × 100 lights and panics on an index out of bounds past the end.
- Year2015Day18.Animate requires at most 10000 characters, for the same reason as Load.
- Year2016Day08.LitAfter requires every command to stay on the 6 × 50 display (`InBounds`): the source panics on an index out of bounds for a row y ≥ 6, a column x ≥ 50, or a `rect` with both sides positive that does not fit. A `rect` with a zero side touches nothing and is accepted.
- Year2016Day08.Apply requires `InBounds` for the same reason as LitAfter.
- Year2016Day08.ApplyAll requires `InBounds` of every command, for the same reason as LitAfter.
- Year2016Day08.Display.Execute requires `InBounds` for the same reason as LitAfter.
- Year2016Day08.Display.RectCommand requires `RectFits`: with both sides positive, the source indexes past the display when the rectangle does not fit.
- Year2016Day08.Display.RotateRowCommand requires a row below 6; `display[y]` panics otherwise.
- Year2016Day08.Display.RotateColumnCommand requires a column below 50; `display[y][x]` panics otherwise.
- Year2016Day16.Disk.Checksum requires a non-empty source. On an empty source the iterator's `source.len() - 1` underflows and panics. On a disk of fewer than two digits it follows the corrected reading (see Findings).
- Year2016Day12.Execute requires a non-empty program; the source indexes the first instruction without checking.
- Year2015Day14.PointsRace requires at least one reindeer, because the source takes the maximum of the distances with `unwrap`.
- Year2015Day24.CalculateBestQe requires at least one compartment, because the source divides the total weight by the number of compartments.
- Year2023Day05.Solve requires every rule to have a positive length (`AllPositive`) and every seed pair to have a positive length (`NonEmpty(PairSpans(seeds))`); with no seeds at all it holds. The source's splitting evaluates `range.end - 1` (src/year_2023/day05.rs:118), which underflows on an empty range ending at 0 and places any other empty range wrongly.
- Year2024Day04.Solve requires the grid's rows to be non-empty and of equal length, as the source's indexing assumes.
- Year2024Day06.Solve requires every coordinate to fit a `usize` (`Addressable`).
- Year2024Day05: `slice::sort_by` with a comparator that may not be a total order is modelled as a stable insertion sort.
- Year2023Day07: `sort_by_key` is modelled as a stable insertion sort. `Hand::parse` counts characters where the source counts bytes; both reject non-ASCII input.
- Year2016Day02: lines are taken as already trimmed.
- Year2015Day02.Totals: lines arrive parsed as `Line` values; the `LxWxH` regular expression and its error messages are not modelled.
- Year2015Day06.Solve: an action other than the three panics in the source, which cannot be expressed in the model. Instructions arrive parsed.
- Year2016Day10: `main`'s final reading of outputs 0, 1 and 2 is modelled through `OutputValue`; the printing is not.

## Findings

Each row below was found while proving the model. None of them was executed.

| source | as written | input that shows it | evidently intended | confidence | as-written member | corrected member |
|---|---|---|---|---|---|---|
| src/util/is_hex.rs:8 | the upper-case range is `'A'..='B'`, so `C` to `F` are not hexadecimal | `\xCF` in a 2015 day 8 string literal: `main` fails on it, while `\xcf` counts as one byte | `'A'..='F'`, like the lower-case range | high, not executed | IsHex.IsHexExactly, Year2015Day08.UpperEscapeRejected | IsHex.IsHexDigitExactly, Year2015Day08.ByteEscapeCounts |
| src/year_2015/day25.rs:43-51 | the first cell is taken off the iterator before the loop, and the target is only compared inside the loop | target row 1, column 1: the loop never meets (1, 1) and does not stop | compare the first cell too, so (1, 1) gives the first code, 20151125 | high, not executed | Year2015Day25.CodeAtAsWritten, Year2015Day25.AsWrittenMissesFirstCell | Year2015Day25.CodeAt, Year2015Day25.CellAtOrdinal |
| src/year_2016/day07.rs:71 | an ABA is any window whose first and third letters match, `win[0] == win[2]`, with no check that the middle letter differs | `aaa[aaa]`: the outside window records (a, a) and the inside one its flip, so the line counts as SSL | an ABA needs two different letters, as the TLS check's `win[0] != win[1]` does for ABBA, so `aaa[aaa]` does not support SSL | medium, not executed | Year2016Day07.SslScan, Year2016Day07.SslAsWrittenAcceptsRepeat | Year2016Day07.SslMeaning, Year2016Day07.AbaBabIsSsl |
| src/year_2016/day11.rs:247-249 | in the unpaired branch of `normalize_devices` the index is advanced before the device is read, so the next device's kind is pushed | the floor [M1, G2] (a microchip and another element's generator) normalises to [Generator, Generator], the same form as [G3, G2], so `minimum_steps` treats the two as one seen state | push the current device's kind, then advance: [M1, G2] normalises to [Generator, Microchip] | medium, not executed | Year2016Day11.NormalizeDevices, Year2016Day11.AsWrittenMiscounts, Year2016Day11.AsWrittenMergesFloors | Year2016Day11.IntendedFloor, Year2016Day11.NormalizedKeepsKinds |
| src/year_2016/day12.rs:66-68 | `JumpBackward` checks `magnitude <= instruction_pointer` and then subtracts 1 | `jmp +3; inc a; jmp +9; jnz 1 -2` from 0: as written the last jump lands on `jmp +9` and `a` ends 0 | subtract the magnitude, as `JumpBackwardIfNotZero` does, landing on `inc a` so `a` ends 1 | high, not executed | Year2016Day12.ExecAsWritten, Year2016Day12.AsWrittenSkipsBack | Year2016Day12.Exec, Year2016Day12.ForwardThenBack |
| src/year_2016/day16.rs:107-111 | an even-length checksum is checksummed again, and an empty checksum counts as even | a disk of `max_len` 1 (or 0): the pairs are empty, so `checksum` calls itself on an empty disk, which again gives an empty checksum, and it never returns | stop on an empty checksum as on an odd one | medium, not executed | Year2016Day16.ChecksumAsWritten, Year2016Day16.ShortChecksumNeverEnds | Year2016Day16.ChecksumOf, Year2016Day16.ChecksumOdd, Year2016Day16.Disk.Checksum |
| src/year_2023/day01.rs:40-48 | on a mismatch the observer falls back only to index 1 (when the character is the word's first letter) or to 0, never to a shorter prefix of the word that still matches | the line `ninine`: it ends with "nine", but the "nine" observer is at index 0 after the second `i` and never reports | report whenever the text seen ends with the word | medium, not executed | Year2023Day01.Observer.Observe, Year2023Day01.NineOverlapMissed | Year2023Day01.SpelledDigits, Year2023Day01.IntendedNone |
| src/year_2023/day01.rs:63-106 | the observers are built once, before the loop over the lines, and keep their index from one line to the next | the line `1on` followed by `e5`: the "one" observer reports on the second line, which contains no "one" | fresh observers for every line, so each line's spelled digits depend on that line alone | medium, not executed | Year2023Day01.CalibrationSumsAsWritten, Year2023Day01.CarriedMatchFires | Year2023Day01.CalibrationSums, Year2023Day01.FreshObserversExact |
| src/year_2024/day01.rs:43-46 | on equal numbers the merge adds the right number and advances only the right side, so a repeated left number is matched only once | left `[3, 3]`, right `[3]`: the merge gives 3, the similarity score is 6 | add each left number times its count on the right | medium, not executed | Year2024Day01.SimilarityAsWritten, Year2024Day01.DuplicateLeftUndercounts | Year2024Day01.SimilarityByRuns, Year2024Day01.SimilarityAppendRight |
| src/year_2025/day01.rs:31-36 | `count_new` adds the truncated hundreds of the new reading plus one when it went below 0 | `L50` then `R5` from 50: `count_new` stays 0, though the dial pointed at 0 once; from 0, `L5` adds 1 though the dial never returns to 0 | every click that leaves the dial at 0 is counted once | medium, not executed | Year2025Day01.Turn, Year2025Day01.PassesAsWrittenClosed, Year2025Day01.LandingFromLeftMissed, Year2025Day01.LeavingLeftCounted | Year2025Day01.ZeroClicks, Year2025Day01.ZeroClicksCount |
| src/year_2025/day02.rs:39 | `for l in 1..len / 2` never tries the block length `len / 2` | the range `111-111`: `111` is neither invalid nor found by the scan, so `sum_patterned` stays 0 | block lengths `1..=len / 2`, so `111` adds 111 | high, not executed | Year2025Day02.IsInvalidPatternedAsWritten, Year2025Day02.ThreeDigitsMissed, Year2025Day02.ThreeDigitSpan | Year2025Day02.IsInvalidPatterned, Year2025Day02.AsWrittenAgrees, Year2025Day02.TotalAgrees |
