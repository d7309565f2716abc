# aocbot core, modelled in Dafny

aocbot is a Matrix bot for an Advent of Code private leaderboard. This
project models its core in Dafny and proves properties of the model:

- **Puzzle calendar.** A puzzle unlocks at midnight EST on December 1–25. The model covers which puzzle is current, most recent or next at a given instant, and the EST calendar arithmetic behind that.
- **Leaderboard client.** It keeps a per-year cache of private leaderboards. An entry's time-to-live depends on how many minutes ago today's puzzle unlocked. The cache is persisted after every change. A leaderboard can also be re-scored for a single day.
- **Leaderboard data.** The member order used for ranking, display names and mentions.
- **Background tasks.** Two tasks compare each new leaderboard with the previous one. One announces newly solved puzzle parts; the other announces members joining and leaving.
- **Chat commands.** The model covers the command tokenizer and the `leaderboard`, `user` and `solutions` commands. For each it models what the command computes from its arguments, the leaderboard and the configured users.
- **Formatting.** Rank formatting, and the lookup tables of configured users.

Instants are whole Unix seconds. "now" is a parameter of every operation that
reads the clock. A `HashMap`'s iteration order is a parameter too: a sequence
`order` that lists every key once. Results are stated for every such order.
The leaderboard website, the key-value store and the Matrix room are small
classes that record what was asked of them. The website's answer per year is
a parameter. The store has a flag that says whether it accepts writes, the room
a planned outcome for each coming send, and the clock a planned extra delay
for each sleep and a log of the sleeps it made.

Source paths below are relative to the repository root.

## Model

| member | source | states |
|---|---|---|
| Text.NatToString | src/aoc/models.rs:40 | the decimal rendering of a number is a non-empty string of digits that starts with 0 only for 0 itself |
| Text.ParseInteger | src/matrix/commands/aoc/leaderboard.rs:30-32 | `str::parse` for an integer type accepts only values in the type's range, and a result without a minus sign is non-negative |
| Text.ParsePrinted | src/matrix/commands/aoc/leaderboard.rs:30-32 | parsing the decimal rendering of a `u64` (and of an `i32`) gives the number back |
| Text.ParsePrintedI32 | src/matrix/commands/aoc/user.rs:32-35 | parsing the rendering of any `i32`, negative ones included, as an `i32` gives it back |
| Text.ToLower | src/matrix/commands/parser.rs:68-71 | lower-casing keeps the length and lower-cases each character; no upper-case letter remains |
| DateTime.CivilFromDays | src/utils/datetime.rs:29-31 | the calendar date of a day number has a month in 1..12 and a day in 1..31 |
| DateTime.CivilRoundTrip | src/utils/datetime.rs:29-31 | converting the date of a day number back to a day number gives the same number |
| DateTime.NowEst | src/utils/datetime.rs:29-31 | `now_est()` is the date whose EST day contains the instant |
| DateTime.EstDayNumber | src/utils/datetime.rs:6 | the EST day containing an instant: the instant, shifted five hours west, lies within that day's 24 hours |
| DateTime.DecemberRoundTrip | src/utils/datetime.rs:29-31 | every December date converts to a day number and back unchanged |
| DateTime.DecemberYear | src/aoc/day.rs:30-55 | from one December 1 to the next is 365 or 366 days |
| DateTime.OutsideDecember | src/aoc/day.rs:47-49 | a date in January to November lies after December 31 of the year before and before December 1 of its own year |
| DateTime.SplitUnique | src/utils/datetime.rs:29-31 | a day of a 400-year era belongs to exactly one year of the era |
| DateTime.DaysFromCivil | src/utils/datetime.rs:29-31 | the day number of a calendar date, the inverse of `CivilFromDays` (`CivilRoundTrip`, `DecemberRoundTrip`); a definition without a contract of its own |
| DateTime.Clock.Sleep | src/utils/datetime.rs:44 | a sleep logs its start reading and length, and advances the clock by the requested duration plus that sleep's own non-negative lag, so by at least the duration |
| DateTime.SleepUntil | src/utils/datetime.rs:34-45 | the sleeps returned are exactly the ones the clock logged. The first starts at the reading on entry and each later one where the one before ended. Each is min(target − reading, 60 s) and starts before the target. There are none exactly when the clock had already reached the target, and at most ⌈remaining/60⌉ otherwise. On return the clock has reached the target |
| Day.UnlockIsEstMidnight | src/aoc/day.rs:12-16 | a puzzle unlocks at midnight EST on December `day` of its year |
| Day.UnlockInstant | src/aoc/day.rs:12-16 | the unlock instant of a puzzle: midnight EST on December `day` of its year, as `UnlockIsEstMidnight` states |
| Day.Url | src/aoc/day.rs:18-20 | the puzzle's address on the website; `UrlExamples` states the tested ones |
| Day.Current | src/aoc/day.rs:22-28 | a current puzzle is a puzzle day of the year of today's EST date; `CurrentIsTodaysPuzzle` states exactly when there is one |
| Day.Next | src/aoc/day.rs:30-43 | `next()` is always a puzzle day (December 1 to 25) |
| Day.MostRecent | src/aoc/day.rs:45-55 | `most_recent()` is always a puzzle day |
| Day.CurrentIsTodaysPuzzle | src/aoc/day.rs:22-28 | `current()` is Some(d) exactly when d is a puzzle day that unlocked within the last 24 hours |
| Day.MostRecentIsCurrent | src/aoc/day.rs:22-55 | while a puzzle is current, it is the most recent puzzle |
| Day.NextIsSuccessor | src/aoc/day.rs:30-55 | the next puzzle is the one after the most recent (December 25 is followed by December 1 of the next year) |
| Day.MostRecentHasUnlocked | src/aoc/day.rs:45-55 | the most recent puzzle has unlocked by now |
| Day.NextUnlocksLater | src/aoc/day.rs:30-43 | the next puzzle unlocks strictly after now |
| Day.UnlockIncreasing | src/aoc/day.rs:12-16 | puzzles unlock in calendar order, each strictly after the one before |
| Day.SuccessorUnlocksFirst | src/aoc/day.rs:12-16 | no puzzle after `a` unlocks before the puzzle that directly follows `a` |
| Day.MostRecentUnique | src/aoc/day.rs:45-55 | the most recent puzzle is the only one that has unlocked while its successor has not |
| Day.NextUnique | src/aoc/day.rs:30-43 | the next puzzle is the only one that follows a puzzle that has unlocked and that has not unlocked itself |
| Day.NoCurrentAfterADay | src/aoc/day.rs:22-28 | more than a day after the most recent unlock, no puzzle is current |
| Day.Unlocks2024 | src/aoc/day.rs:63-76 | the 2024 puzzles unlock at 2024-12-01T06:00:00+01:00 and every 24 hours after |
| Day.Unlocks2025 | src/aoc/day.rs:70 | the first 2025 puzzle unlocks at 2025-12-01T06:00:00+01:00 |
| Day.CalendarBefore2024 | src/aoc/day.rs:85-140 | between the last 2023 unlock and the first 2024 unlock, the most recent puzzle is 2023/25 and the next is 2024/1 |
| Day.CalendarDecember2024 | src/aoc/day.rs:85-140 | on each day of December 1–25, 2024, that day's puzzle is current and most recent, and the next is the following one |
| Day.CalendarAfter2024 | src/aoc/day.rs:85-140 | after December 25, 2024 ends and before the first 2025 unlock, 2024/25 is the most recent puzzle, 2025/1 is next, and none is current |
| Day.CalendarExamplesBefore | src/aoc/day.rs:85-140 | at the test instants before the first unlock of 2024, the most recent puzzle is 2023-25, the next 2024-1 and none is current |
| Day.CalendarExamples | src/aoc/day.rs:85-140 | at each December 2024 test instant (1733029213, 1734268620, 1735102747, 1735102807), `most_recent`, `current` and `next` give the puzzles the test expects |
| Day.CalendarExamplesAfter | src/aoc/day.rs:85-140 | at the test instants after December 25, 2024 (1735648662, 1736253462), the most recent puzzle is 2024-25, the next 2025-1, and none is current |
| Day.UrlExamples | src/aoc/day.rs:78-83 | the puzzle URLs of the `url` test |
| Sorting.SortBy | src/matrix/commands/aoc/leaderboard.rs:85 | sorting keeps the same elements with the same multiplicities (a permutation) |
| Sorting.SortBySorted | src/matrix/commands/aoc/leaderboard.rs:85 | under a total preorder, the sorted sequence is sorted |
| Sorting.SortByKeepsDistinct | src/aoc/client.rs:148 | sorting a list without repetitions gives a list without repetitions |
| Sorting.DistinctCardinality | src/aoc/client.rs:179 | a list without repetitions has as many distinct elements as entries |
| Models.Values | src/matrix/commands/aoc/leaderboard.rs:84 | `into_values()` in visiting order: one member per visited key, in that order |
| Models.CompareIsRanking | src/aoc/models.rs:73-85 | `cmp` ranks by the higher local score, then more stars, then the earlier last star, then the smaller id |
| Models.Compare | src/aoc/models.rs:73-85 | the member order; `CompareIsRanking` states it against the ranking it implements |
| Models.CompareAntisymmetric | src/aoc/models.rs:73-85 | swapping the members flips the ordering, and a member equals itself |
| Models.CompareTransitive | src/aoc/models.rs:73-85 | member order is transitive |
| Models.DistinctIdsNeverEqual | src/aoc/models.rs:73-85 | members with different ids never compare Equal |
| Models.PartialCompareAgrees | src/aoc/models.rs:67-71 | `partial_cmp` always answers, and agrees with `cmp` |
| Models.MemberOrderIsTotalPreorder | src/aoc/models.rs:73-85 | member order is a total preorder, so sorting by it sorts |
| Models.AnonymousNamesDistinct | src/aoc/models.rs:37-42 | two anonymous members get the same display name exactly when their ids are equal |
| Models.DisplayName | src/aoc/models.rs:37-42 | the member's name, or an anonymous name with its id; `AnonymousNamesDistinct` states what tells two apart |
| Models.MentionOrDisplayName | src/aoc/models.rs:44-49 | the display name, linked to the Matrix user when there is one; `MentionShowsDisplayName` states its shape |
| Models.MentionShowsDisplayName | src/aoc/models.rs:44-49 | the mention holds the display name: in bold without a Matrix user, or in parentheses after the matrix.to link with one |
| Client.RuleAbove | src/aoc/client.rs:87-90 | the ttl found belongs to a rule whose key is above the minutes; there is none only when no key is above them |
| Client.RuleAboveIsSmallest | src/aoc/client.rs:87-90 | with increasing keys, the rule found is the one with the smallest key above the minutes |
| Client.NumMinutes | src/aoc/client.rs:86 | `num_minutes` truncates toward zero: a non-negative span gives the whole minutes in it, a negative one the negated whole minutes of its magnitude |
| Client.CacheTtl | src/aoc/client.rs:84-94 | the ttl rule lookup; `CacheTtlChoice` states which ttl it picks |
| Client.MinutesSinceUnlock | src/aoc/client.rs:84-86 | while a puzzle is current, the whole minutes since its unlock lie in 0..1440 |
| Client.CacheTtlChoice | src/aoc/client.rs:84-94 | the ttl is the default outside a puzzle's first day. On that day it is the ttl of the first rule above the minutes since the unlock, or the default when there is none |
| Client.FreshEntry | src/aoc/client.rs:97 | an entry is served from the cache only when it exists and `now < ts + ttl` |
| Client.LookupOf | src/aoc/client.rs:79-129 | a successful lookup leaves its result in the cache under the year |
| Client.LookupFetches | src/aoc/client.rs:96-121 | the website is asked exactly when the refresh is forced or neither freshness check (before and after another task may have stored an entry) finds a fresh one. An entry served without asking is fresh and leaves the store alone; a fresh entry already in the cache is served changing nothing |
| Client.LookupResult | src/aoc/client.rs:114-128 | the lookup succeeds exactly when no fetch was needed, or the website answered and the store took the new cache; a failure is the website's error if it failed, else the store's |
| Client.FetchedIsStored | src/aoc/client.rs:117-127 | a fetched leaderboard is stored under the year with `now` as its timestamp, so it is fresh under any positive ttl, and the whole cache is persisted when the store takes it; a failed fetch changes the cache only by the entry another task stored meanwhile, and leaves the store alone |
| Client.LookupTouchesOneYear | src/aoc/client.rs:124 | a lookup leaves every other year's entry as it was |
| Client.Api.GetPrivateLeaderboard | src/aoc/api.rs:54-68 | a request returns the website's answer for the year and is recorded |
| Client.Store.Set | src/aoc/client.rs:125-127 | a write succeeds exactly while the store is writable, and then holds the written cache |
| Client.AocClient.constructor | src/aoc/client.rs:44-47 | the cache starts as the stored cache, or empty when none is stored |
| Client.AocClient.ClearLeaderboardCache | src/aoc/client.rs:63-70 | the cache becomes empty and the empty cache is persisted; a failed write is an error |
| Client.AocClient.GetPrivateLeaderboardCached | src/aoc/client.rs:72-77 | returns the cached entry for the year, fresh or not, and never fetches |
| Client.AocClient.GetPrivateLeaderboard | src/aoc/client.rs:79-129 | the result, the new cache, the store contents and the request log are exactly those `LookupOf` gives for the old cache, the ttl `CacheTtl` picks and the website's answer; only a fetch is logged as a request |
| Client.AocClient.GetDailyPrivateLeaderboard | src/aoc/client.rs:131-198 | fails exactly when the lookup `LookupOf` describes fails, with its error, and leaves the same cache, store and requests. On success it returns the year's leaderboard with every member re-scored (`Rescored`) for the day and selected parts, and the cached timestamp |
| Client.FinisherLe | src/aoc/client.rs:148 | the sort key `(ts, m)`: earlier star first, then member order |
| Client.FinisherOrderIsTotalPreorder | src/aoc/client.rs:148 | the `(ts, m)` order is a total preorder |
| Client.Finishers | src/aoc/client.rs:139-147 | every visited member who solved the part appears with that star's instant, no one else does, and none twice |
| Client.RankingFacts | src/aoc/client.rs:139-168 | a part's ranking is sorted by `(ts, m)` and holds each solver exactly once with that star's instant, and no one else |
| Client.RankingKeys | src/aoc/client.rs:139-168 | a ranking is no longer than the member list and names only members |
| Client.RankingSorted | src/aoc/client.rs:139-168 | a part's ranking is sorted by `(ts, m)`: the earlier star first, member order on a tie |
| Client.FinisherAt | src/aoc/client.rs:139-168 | a member who solved the part stands at exactly one place in its ranking, with that star's instant |
| Client.Rescored | src/aoc/client.rs:170-195 | re-scoring keeps the set of member keys |
| Client.RescoredMember | src/aoc/client.rs:170-195 | after re-scoring, a member's global score is 0. Each counted part it solved gives one star and N − position points, between 1 and N. Its last-star instant is the latest counted star, or the epoch when there is none. Id, name and completions are unchanged |
| Client.EarlierFinisherScoresMore | src/aoc/client.rs:148-195 | within a part, a member who finished strictly earlier under `(ts, m)` earns strictly more points |
| Client.ApplyRankingAt | src/aoc/client.rs:178-184 | scoring the first i finishers changes exactly those entries, each once |
| Client.RankingPosition | src/aoc/client.rs:139-168 | a member stands in a part's ranking exactly when it solved that part |
| Client.TwoPasses | src/aoc/client.rs:177-195 | the part 1 and part 2 passes act on each member independently |
| Client.RescoredShape | src/aoc/client.rs:170-195 | re-scoring one member is a reset followed by the counted passes |
| Client.EnumerateKeys | src/aoc/client.rs:170 | visits every key of the map exactly once |
| Client.Rescore | src/aoc/client.rs:139-195 | the loops compute `Rescored` |
| Client.ResetMembers | src/aoc/client.rs:170-175 | the loop over all members computes the reset of every member's scores, stars and last-star instant |
| Client.ScorePass | src/aoc/client.rs:177-185 | the loop over a ranking gives its i-th finisher (from 0) N − i points and a star, as `ApplyRanking` states |
| Chat.Room.Send | src/tasks/solve_notifications.rs:139 | a send succeeds exactly when the next planned outcome is a success (or none is left), uses up that outcome, and appends the notice to what was sent only on success |
| Chat.Delivered | src/tasks/solve_notifications.rs:138-140 | the number of notices delivered before the first refused send: the outcomes before it are all successes, and it falls short only at a refusal |
| Chat.DeliveredAll | src/tasks/solve_notifications.rs:138-140 | all notices are delivered exactly when none of their sends is refused |
| Chat.SendAll | src/tasks/solve_notifications.rs:138-140 | the first `Delivered` notices are posted in order and nothing else; the result is true exactly when all of them were, and the loop stops at the first refused send |
| SolveNotifications.TsLe | src/tasks/solve_notifications.rs:135 | the sort key is the star's instant |
| SolveNotifications.RankBounds | src/tasks/solve_notifications.rs:91-98 | a notice's rank is between 1 and the number of members |
| SolveNotifications.RankAmong | src/tasks/solve_notifications.rs:91-98 | the count of members who solved the part no later; `RankBounds` bounds it |
| SolveNotifications.NoBaselineNoNotices | src/tasks/solve_notifications.rs:61-64 | with an empty previous leaderboard nothing is announced |
| SolveNotifications.MemberNotices | src/tasks/solve_notifications.rs:87-130 | one member's notices are exactly its newly solved parts, each once. Part 1 counts when the day is new; part 2 when the day is new or had no part 2 |
| SolveNotifications.RetainRecent | src/tasks/solve_notifications.rs:134 | keeps exactly the notices at most 24 hours old |
| SolveNotifications.Notices | src/tasks/solve_notifications.rs:81-135 | the notices sent are every newly solved part at most a day old, each once and nothing else, sorted by the star's instant |
| SolveNotifications.SolveWatcher.constructor | src/tasks/solve_notifications.rs:20-26 | starts on the most recent event's year, with the cached leaderboard as its baseline if there is one |
| SolveNotifications.SolveWatcher.Trigger | src/tasks/solve_notifications.rs:36-72 | the year is the most recent event's and a change of year drops the baseline. The client does one lookup as `LookupOf` states. A failed lookup sends nothing and keeps the baseline. Otherwise the notices are `IsNoticeList` for the new leaderboard against the baseline, the delivered prefix is posted, and the new leaderboard becomes the baseline exactly when every notice was delivered |
| JoinLeaveNotifications.Notices | src/tasks/join_leave_notifications.rs:79-89 | one loop over a map: a notice for exactly the keys the other map lacks, with the member stored under the key, each key once |
| JoinLeaveNotifications.Changes | src/tasks/join_leave_notifications.rs:63-89 | nothing for an empty baseline. Otherwise a "joined" for each key only in the new map, then a "left" for each key only in the old map, each once |
| JoinLeaveNotifications.ChangeCount | src/tasks/join_leave_notifications.rs:79-89 | as many notices as keys in exactly one of the two maps |
| JoinLeaveNotifications.ChangeKeys | src/tasks/join_leave_notifications.rs:79-89 | the keys announced are exactly the keys in one map but not the other |
| JoinLeaveNotifications.JoinLeaveWatcher.constructor | src/tasks/join_leave_notifications.rs:15-21 | the baseline is the cached leaderboard of the most recent year, if any |
| JoinLeaveNotifications.JoinLeaveWatcher.Trigger | src/tasks/join_leave_notifications.rs:31-61 | the year is read afresh and the baseline is kept across a change of year. The client does one lookup as `LookupOf` states. A failed lookup sends nothing and keeps the baseline. Otherwise the changes are `IsChangeList` against the baseline, the delivered prefix is posted, and the new leaderboard becomes the baseline exactly when every change was delivered |
| Fmt.MedalOnlyOnPodium | src/utils/fmt.rs:5-10 | a medal is shown exactly for ranks 1 to 3, a different one for each |
| Fmt.FormatRank | src/utils/fmt.rs:3-20 | medal, decimal rank and suffix; `FormatRankParts` states its parts |
| Fmt.SuffixRule | src/utils/fmt.rs:11-17 | "th" for every rank whose tens digit is 1; otherwise "st", "nd", "rd" after a last digit 1, 2, 3 and "th" after any other |
| Fmt.FormatRankParts | src/utils/fmt.rs:3-20 | the text is the medal, then the rank in decimal (which parses back to the rank), then the suffix |
| Fmt.FormatRankExamples | src/utils/fmt.rs:3-20 | 🥇 1st, 🥈 2nd, 🥉 3rd, 4th, 11th, 12th, 13th, 21st, 102nd, 112th |
| Context.Index | src/context.rs:55-64 | a key is in the table exactly when some item carries it, and the item found carries that key |
| Context.FromConfig | src/context.rs:53-68 | `by_aoc` holds exactly the ids configured users carry and `by_matrix` exactly their Matrix ids, each mapping to a user with that id |
| Context.IndexFindsLast | src/context.rs:55-64 | a key finds the last item that carries it |
| Context.FromConfigFindsUsers | src/context.rs:53-68 | a configured user is found under its id and its Matrix id unless a later user claims the same one |
| Context.ColumnsOfConfiguredUser | src/matrix/commands/aoc/leaderboard.rs:119-132 | a member is shown with the Matrix link and repository of the last configured user with its id |
| Context.LinkedColumns | src/matrix/commands/aoc/leaderboard.rs:119-132 | the Matrix link and repository columns of a member; `ColumnsOfConfiguredUser` and `ColumnsOfUnclaimedMember` state them |
| Context.ColumnsOfUnclaimedMember | src/matrix/commands/aoc/leaderboard.rs:119-132 | a member no configured user claims is shown without Matrix link or repository |
| LeaderboardCommand.ClassifyNumber | src/matrix/commands/aoc/leaderboard.rs:30-44 | for every integer: a year from 2015 up to the largest `i32`, a count from 0 to 200, and invalid otherwise (negative numbers and numbers beyond both types included) |
| LeaderboardCommand.Classify | src/matrix/commands/aoc/leaderboard.rs:29-44 | how one argument is read; `ClassifyNumber` and the example lemmas state it |
| LeaderboardCommand.ClassifyYearExamples | src/matrix/commands/aoc/leaderboard.rs:30-32 | "2020" is a year; "2014" is neither a year nor a count, so it is invalid |
| LeaderboardCommand.ClassifyCountExamples | src/matrix/commands/aoc/leaderboard.rs:32-37 | "200" is a row count; "201" is invalid |
| LeaderboardCommand.ClassifyFlagExamples | src/matrix/commands/aoc/leaderboard.rs:38-39 | "-r" and "--refresh" both force a refresh |
| LeaderboardCommand.Kinds | src/matrix/commands/aoc/leaderboard.rs:29-30 | each argument is classified on its own |
| LeaderboardCommand.ParseArgs | src/matrix/commands/aoc/leaderboard.rs:22-46 | the loop yields the settings `ArgsOf` describes. Any invalid argument means "Invalid arguments". Otherwise the year is the last year named (default: the most recent event's), rows is the first count (default: configured), offset is the last later count (default 0), and refresh is set if any flag asks for it |
| LeaderboardCommand.ArgsOf | src/matrix/commands/aoc/leaderboard.rs:22-46 | the settings the arguments describe; `ReadKinds`, `NoArgs`, `YearAndFlagArgs` and `CountArgs` state them |
| LeaderboardCommand.ReadKinds | src/matrix/commands/aoc/leaderboard.rs:29-45 | the argument loop over classified arguments stops with "Invalid arguments" at the first invalid one and otherwise ends with the settings `ArgsOf` gives |
| LeaderboardCommand.ReadStep | src/matrix/commands/aoc/leaderboard.rs:30-39 | after one more argument, a year replaces the year, the first count sets the rows and any later count sets the offset, and a flag sets refresh; everything else stays the same |
| LeaderboardCommand.NoArgs | src/matrix/commands/aoc/leaderboard.rs:22-46 | no arguments give the most recent year, the configured rows, offset 0, no refresh |
| LeaderboardCommand.YearAndFlagArgs | src/matrix/commands/aoc/leaderboard.rs:29-45 | a later year overrides an earlier one, and a flag may stand anywhere |
| LeaderboardCommand.CountArgs | src/matrix/commands/aoc/leaderboard.rs:32-37 | the first count is the rows and the last later count the offset |
| LeaderboardCommand.RunStart | src/matrix/commands/aoc/leaderboard.rs:95-106 | the start of the run of equal scores that ends at an index |
| LeaderboardCommand.AssignRanks | src/matrix/commands/aoc/leaderboard.rs:95-106 | the rank closure gives each member 1 + the start of its run of equal scores (0 for a first run scoring `u32::MAX`) |
| LeaderboardCommand.RankIsFirstWithSameScore | src/matrix/commands/aoc/leaderboard.rs:95-106 | on scores sorted best first, a rank is 1 + the index of the first equal score, and every member before it scored more |
| LeaderboardCommand.RankExample | src/matrix/commands/aoc/leaderboard.rs:95-106 | scores 100, 100, 80, 50, 50 get ranks 1, 1, 3, 4, 4 |
| LeaderboardCommand.Window | src/matrix/commands/aoc/leaderboard.rs:107-108 | `skip(offset).take(rows)`: at most `rows` consecutive entries starting at `offset`, fewer only at the end |
| LeaderboardCommand.RankedRows | src/matrix/commands/aoc/leaderboard.rs:95-145 | each row keeps its member and rank, is bold exactly for ranks up to 3, and shows the linked Matrix link and repository |
| LeaderboardCommand.LocalScores | src/matrix/commands/aoc/leaderboard.rs:101 | the local score of each member, in order |
| LeaderboardCommand.Invoke | src/matrix/commands/aoc/leaderboard.rs:16-108 | "Invalid arguments" exactly for an invalid argument and "Permission denied" exactly for a refresh forced by a non-admin; neither touches the client. Otherwise the client does the lookup `LookupOf` states, with `force` set by the refresh flag. An HTTP fetch failure is answered with its status, any other failure is returned as the error, and on success the table is the window of the members sorted by member order with their ranks and linked columns |
| Parser.SkipUntil | src/matrix/commands/parser.rs:32-41 | the first position from i on whose character satisfies the condition, or the end |
| Parser.ReadToken | src/matrix/commands/parser.rs:51-89 | reading a token always moves forward |
| Parser.ParsedCommand.GetFromKwargsOrArgs | src/matrix/commands/parser.rs:14-19 | the keyword value when there is one, leaving the positional arguments alone. Otherwise the first positional argument, which is removed. None when both are missing |
| Parser.Skip | src/matrix/commands/parser.rs:32-36 | the `skip_until!` loop reaches `SkipUntil` |
| Parser.Word | src/matrix/commands/parser.rs:55-88 | one pass of the scanning loop reads `ReadToken` |
| Parser.Parse | src/matrix/commands/parser.rs:22-96 | the scanning loop computes `ParseSpec` |
| Parser.RestBorrows | src/matrix/commands/parser.rs:51-89 | every argument and value read is a contiguous slice of the input, and every key is lower-case |
| Parser.ParseSpecShape | src/matrix/commands/parser.rs:43-46 | the command is the first word: only whitespace before it, no whitespace in it, whitespace or the end after it. Arguments and values are slices of the input, and keys are lower-case |
| Parser.ParseSpec | src/matrix/commands/parser.rs:22-96 | what `parse` returns, read token by token; `ParseSpecShape` and `RestBorrows` state its shape |
| Parser.KwargOrArg | src/matrix/commands/parser.rs:14-19 | the keyword value or the first positional argument; `GetFromKwargsOrArgs` states it |
| ParserExamples.NoArgsExamples | src/matrix/commands/parser.rs:117-122 | "test", " test" and "test " give the command "test" and nothing else |
| ParserExamples.ArgsExample | src/matrix/commands/parser.rs:124-128 | "test foo  bar" gives the arguments foo and bar |
| ParserExamples.ArgsTrailingSpaceExample | src/matrix/commands/parser.rs:124-128 | a trailing space changes nothing |
| ParserExamples.KwargsExample | src/matrix/commands/parser.rs:130-135 | "test foo=bar X=123" gives foo=bar and x=123 |
| ParserExamples.KwargsTrailingSpaceExample | src/matrix/commands/parser.rs:130-135 | "test Foo=bar x=123 " gives the same keys, lower-cased |
| ParserExamples.QuoteExample | src/matrix/commands/parser.rs:137-144 | a quoted argument keeps its spaces, and a quoted value too |
| ParserExamples.QuotedEqualsExample | src/matrix/commands/parser.rs:145 | an `=` inside quotes stays part of a positional argument |
| ParserExamples.UnterminatedQuoteExample | src/matrix/commands/parser.rs:55-61 | an unterminated quote takes the rest of the input |
| ParserExamples.RepeatedKeyExample | src/matrix/commands/parser.rs:79-84 | a later value for a key replaces an earlier one, case-insensitively |
| UserCommand.ResolvePrintedYear | src/matrix/commands/aoc/user.rs:32-40 | a year is accepted exactly when it lies in 2015 up to the most recent year |
| UserCommand.ResolveYear | src/matrix/commands/aoc/user.rs:32-40 | the year argument read as an `i32` and checked against 2015 and the most recent year; `ResolvePrintedYear` states it |
| UserCommand.FindFirst | src/matrix/commands/aoc/user.rs:51-59 | `find`: the first member, in visiting order, that satisfies the predicate, or None exactly when no member does |
| UserCommand.FindMember | src/matrix/commands/aoc/user.rs:50-81 | with a name: the first member whose id or name matches it (ignoring case); when none does and the name, or else the first mention, is a configured Matrix user, the first member with that user's id, found exactly when there is one. Without a name: the first member with the sender's linked id, found exactly when the sender is configured and such a member exists |
| UserCommand.FirstMention | src/matrix/commands/aoc/user.rs:68 | the first of the ascending mentions, the least of them, and None exactly when there are none |
| UserCommand.OverallRankBounds | src/matrix/commands/aoc/user.rs:110 | a member's overall rank is between 1 and the number of members |
| UserCommand.OverallRank | src/matrix/commands/aoc/user.rs:110 | a member's overall rank lies between 1 and the number of members |
| UserCommand.OverallRankMonotone | src/matrix/commands/aoc/user.rs:110 | a member listed no later than another never has a worse overall rank |
| UserCommand.DaysBounds | src/matrix/commands/aoc/user.rs:114-119 | the days so far are between 1 and 25, and 25 for any year but the most recent |
| UserCommand.PartRankCounts | src/matrix/commands/aoc/user.rs:180-201 | a part's rank counts exactly the members who solved it no later; it is at least 1 for a member who holds that time |
| UserCommand.PartRank | src/matrix/commands/aoc/user.rs:180-201 | the count of members who solved the part no later; `PartRankCounts` states it |
| UserCommand.DayRowShape | src/matrix/commands/aoc/user.rs:164-224 | a day is unsolved exactly when the member lacks it. Part 2 is shown only with part 1. The delays are measured from the unlock and from part 1, and the ranks shown are at least 1 |
| UserCommand.DayRowOf | src/matrix/commands/aoc/user.rs:164-224 | one day's row; `DayRowShape` states it |
| UserCommand.DayRows | src/matrix/commands/aoc/user.rs:164-226 | one row per day 1..days, in order |
| UserCommand.Respond | src/matrix/commands/aoc/user.rs:50-226 | "User not found" exactly when `FindMember` finds no one; otherwise the member's Matrix link and repository, its overall rank, the days so far, twice as many possible stars, and `DayRowOf` for each day |
| UserCommand.Invoke | src/matrix/commands/aoc/user.rs:22-226 | `user`, then `year`, are taken from the command and the rest stays in its arguments. A bad year is answered without touching the client. Otherwise the client does the lookup `LookupOf` states and a failure is returned as the error. "User not found" is returned exactly when `FindMember` finds no one; otherwise the stats show the member's Matrix link and repository, its overall rank, the days so far, twice as many possible stars, and `DayRowOf` for each day |
| Solutions.ById | src/matrix/commands/aoc/solutions.rs:16-24 | the map by id holds exactly the ids of the leaderboard's members, each mapping to a member with that id |
| Solutions.RowFor | src/matrix/commands/aoc/solutions.rs:37-56 | a row is linked exactly when the user's id is a member's, and then shows that member's display name; otherwise the name is empty |
| Solutions.WithRepoKeeps | src/matrix/commands/aoc/solutions.rs:36-37 | keeps every user with a repository, as often as it occurs, and drops the rest |
| Solutions.Rows | src/matrix/commands/aoc/solutions.rs:34-57 | one row per user with a repository, in configuration order |
| Solutions.BuildRows | src/matrix/commands/aoc/solutions.rs:34-57 | the loop computes `Rows` |
| Solutions.RowOrderIsTotalPreorder | src/matrix/commands/aoc/solutions.rs:59-67 | the row order is a total preorder |
| Solutions.CompareRows | src/matrix/commands/aoc/solutions.rs:59-67 | the row order: linked rows first, by member order; `RowOrderIsTotalPreorder` and `SortedRowsOrder` state it |
| Solutions.UnlinkedRowsTie | src/matrix/commands/aoc/solutions.rs:59-67 | two rows without a member compare Equal |
| Solutions.SortedRowsOrder | src/matrix/commands/aoc/solutions.rs:59-67 | after sorting, the rows are a permutation, every linked row comes before every unlinked one, and linked rows follow member order |
| Solutions.Invoke | src/matrix/commands/aoc/solutions.rs:11-67 | the client does the lookup `LookupOf` states for the most recent year, and a failure is returned as the error. On success the rows are `Rows` built against that leaderboard's members, sorted by the row order |

## Left out

- I/O and transport: HTTP requests to the website, the whoami lookup, Matrix room joins, sending replies, and rendering HTML, Markdown and notice text. Why a send or a store write fails is not modelled, only whether it does.
- Concurrency: the read and write guards of the cache are modelled by the `raced` parameter. It is the entry another task may store between the two freshness checks. That task's own store write is not modelled.
- A store whose contents do not decode is modelled as empty.
- Time zones other than EST: `local_timezone` formatting of instants is not modelled.
- Sub-second precision: instants are whole seconds.
- Floating point: the stars progress percentage is not modelled.
- `fmt_rank` and `fmt_timedelta`: the command files use `fmt_rank` and `fmt_timedelta`, but `src/utils/fmt.rs` defines only `format_rank`. The model formats ranks with `format_rank` and keeps durations as integer seconds.
- `repo_rules`: the regular-expression replacement of repository titles, and the `link_prefix` of links, are not modelled.
- Unicode: whitespace and lower-casing are modelled for ASCII only. The tokenizer works on characters, while the source slices by byte offsets; for ASCII input these agree.
- Parser.ReadToken: keys are always lower-cased. The source borrows keys that are already lower-case and lower-cases the rest; the value is the same.
- UserCommand.FindMember: the message's mentions are given as the ascending list a `BTreeSet` iterates, so `iter().next()` is the least of them.
- UserCommand.FindMember: Matrix user ids are recognised by a simplified grammar (`@`, then a `:` later on), not the full Matrix grammar.
- MatrixToUri: the matrix.to link does not percent-encode the user id.
- Client.AocClient.GetPrivateLeaderboard: the `force` parameter follows the call in `leaderboard.rs:56`. `client.rs:79` takes only the year; every other caller passes `false`.
- Client.Rescored: scores are unbounded. `u32` overflow of `local_score` is not modelled.
- Day.UnlockInstant: chrono's date range limits are not modelled. Every year is accepted.
- Each command and task reads the clock once (`now`), where the source reads it several times.
- Solutions.Invoke: rows of users without a leaderboard member all carry the empty name and compare Equal. `sort_unstable_by` may list them in any order; the model fixes one order, that of an insertion sort, and its lemmas state only what holds for every sorted order.
