# Message activity cache, modelled in Dafny

The repository keeps an in-memory activity cache for a chat bot. For each
chat (group) it keeps each sender (user), and for each sender the list of
unix-second timestamps of their messages, appended in arrival order. It
answers "who was most active in this chat between two times" by counting
each user's messages in the window with two binary searches. It then ranks
the users by that count, breaking ties by the latest message. The cache can
also re-sort every log, evict timestamps older than a threshold, and count
everything it holds. Ingesting a message creates the chat and the sender on
first sight and replaces their stored details with the ones the message
carries.

The model has seven modules:

- `Search` (`search.dfy`): the two boundary searches, as loops over `lo`/`hi`. The test they are given is a partial function defined only strictly between the bounds. Dafny checks every probe against it, so no log is read out of range.
- `Logs` (`logs.dfy`): one user's log as a `seq<int>`. It gives the counting functions the searches are proved against and the window count. It also has the last timestamp, the reference ascending sort, and the eviction as written next to the eviction as intended.
- `Profiles` (`profiles.dfy`): the details objects and the display name.
- `Sorting` (`sorting.dfy`): a reference insertion sort by a total preorder. It stands for `Array.prototype.sort`.
- `Sums` (`sums.dfy`): sums over map values in no fixed order. They stand for the `for ... of map.values()` loops.
- `Views` (`views.dfy`): the cache as a value (`CacheView`). Every operation is specified here as a function of the old value or a relation between old and new values. The properties that relate several operations are lemmas here.
- `Cache` (`cache.dfy`): the classes `User`, `Group` and `MessageCache`.
  - Their fields are updated in place, as the source does.
  - Each class has a ghost `View()` onto module `Views`.
  - Each method's `ensures` ties its result or new state to the functions and relations of `Views` and `Logs`.

Two copies of the cache exist: `model/messageCache.js` and the older `controller/messageCache.js`. One model serves both; see "The older copy" below.

## Model

| member | source | states |
|---|---|---|
| Search.BsearchMin | model/messageCache.js:7-18 | On a nonempty range (a, b) it returns an index in (a, b]. If the test is monotone false-then-true on (a, b), it is false everywhere before the result and true from it on. It returns b when a >= b. Only indices strictly inside (a, b) are probed. |
| Search.BsearchMax | model/messageCache.js:20-31 | On a nonempty range it returns an index in [a, b). If the test is true-then-false on (a, b), it is true on (a, result] and false after. It returns a when b <= a. Only indices strictly inside (a, b) are probed. |
| Cache.User.LastTimestamp | model/messageCache.js:41-48 | None exactly for an empty log. Otherwise it is the last timestamp pushed, and on an ascending log the largest one. |
| Logs.Last | model/messageCache.js:41-48 | None exactly for an empty log. Otherwise it is an element of the log, and on an ascending log the largest one. |
| Cache.User.constructor | model/messageCache.js:35-39 | A new user keeps the id and details given and has an empty log. |
| Cache.User.AddTimestamp | model/messageCache.js:50-53 | The log becomes the old log with the date appended. The details are unchanged. |
| Cache.User.TotalNumberOfMessage | model/messageCache.js:55-57 | It is the user's count in the cache totals, i.e. the length of the log. |
| Cache.User.NumMsgBetween | model/messageCache.js:59-73 | The count is 0 when the log is empty or the window misses [ts[0], ts[last]]. On an ascending log it is `WindowCount`. On an ascending log with start <= end it is the number of entries t with start <= t <= end. |
| Logs.WindowCountIsCount | model/messageCache.js:59-73 | On an ascending log with start <= end, the two-search count equals the linear count of entries in [start, end]. |
| Logs.WindowCountInverted | model/messageCache.js:59-73 | When end < start, the count is never positive. |
| Logs.WindowCountNegativeExample | model/messageCache.js:63-70 | The log [1, 5, 9] with start 6 and end 4 passes the guard and counts -1. |
| Profiles.DisplayName | model/messageCache.js:75-88 | The name is "" exactly when no field is filled. With first and last names filled it is "first last". Otherwise it is the first name, else the last name, else the username. |
| Cache.User.Name | model/messageCache.js:75-88 | It is the display name of the user's details, and "" exactly when none of their name fields is filled. |
| Profiles.DisplayNameScenario | test/model/testMessageCache.js:186-222 | The five stub senders get "stubFirstName stubLastName", "stubFirstName", "stubLastName", "stubUsername" and "". |
| Cache.User.Sort | model/messageCache.js:90-92 | The log becomes ascending and is a permutation of the old log. The details are unchanged. |
| Logs.SortAscending | model/messageCache.js:90-92 | The result is ascending and a permutation of the input. |
| Logs.AscendingPermutationUnique | model/messageCache.js:90-92 | Two ascending permutations of the same log are equal, so the result does not depend on the sort algorithm. |
| Logs.SortAscendingUnique | model/messageCache.js:90-92 | Any ascending permutation of a log is its `SortAscending`. |
| Logs.SortAscendingIdempotent | model/messageCache.js:90-92 | Sorting a sorted log changes nothing. |
| Cache.User.ClearTimestampBefore | model/messageCache.js:94-104 | With the guard corrected to `time > ts[0]` (see Findings): a no-op on an empty log or when time <= ts[0]; otherwise a nonempty prefix is removed. On an ascending log, exactly the entries before time go (`EvictBefore`). The details are unchanged. |
| Logs.ClearAsWritten | model/messageCache.js:94-104 | What the code as written leaves on an ascending log. The result is a suffix of the log. |
| Cache.ClearLogAsWritten | model/messageCache.js:94-104 | The code's own guard `time >= ts[0]` and search: a no-op on an empty log or when time < ts[0]; otherwise a nonempty prefix is removed. On an ascending log the result is `ClearAsWritten`, so it drops ts[0] at time == ts[0]. |
| Logs.ClearAsWrittenIsEvict | model/messageCache.js:94-104 | On an ascending log, except when time == ts[0], the code keeps exactly the entries at or after time. |
| Logs.ClearAsWrittenOverEvicts | model/messageCache.js:97-102 | At time == ts[0] the code drops ts[0], although nothing lies before time. |
| Logs.OverEvictionExample | model/messageCache.js:97-102 | On the log [5, 5, 7] with time 5, the code leaves [5, 7] where [5, 5, 7] is intended. |
| Logs.EvictBefore | model/messageCache.js:94-104 | Intended eviction: the result is a suffix of the log. |
| Logs.EvictBeforeExact | model/messageCache.js:94-104 | On an ascending log, intended eviction keeps the log ascending. Everything it keeps is >= time, and everything it drops is < time. |
| Logs.ClearedKeepsAscending | model/messageCache.js:94-104 | Clearing never lengthens a log. An ascending log stays ascending and loses exactly the entries before time. |
| Cache.Group.constructor | model/messageCache.js:110-114 | A new group has the details given and no users. |
| Cache.Group.SetUser | model/messageCache.js:124-126 | The id now maps to a fresh user with the details given and an empty log. Every other user is unchanged. |
| Cache.Group.ReplaceUserDetails | model/messageCache.js:128-133 | A known user's details are replaced and nothing else changes. It is a no-op for an unknown id. |
| Cache.Group.TotalNumberOfMessage | model/messageCache.js:135-141 | The result is the sum of the log lengths of all users (`GroupTotal`). |
| Cache.User.Line | model/messageCache.js:146-150 | The line pushed for one user: their details, their `numMsgBetween` count and their last timestamp, as `EntryFor` describes. |
| Cache.Group.Lines | model/messageCache.js:144-151 | There is one line per user: details, `numMsgBetween` count and last timestamp. On ascending logs the counts add up to the group's window total. |
| Views.LinesSoFarStart | model/messageCache.js:144-151 | Before the loop, nothing is collected and the whole window total is still to come. |
| Views.LinesSoFarStep | model/messageCache.js:144-151 | Appending one user's line keeps the loop invariant. |
| Views.LinesSoFarDone | model/messageCache.js:144-151 | After the loop, every user has a line and the counts equal the window total. |
| Sorting.SortBy | model/messageCache.js:152-158 | The reference sort returns a permutation of its input. |
| Sorting.SortBySorted | model/messageCache.js:152-158 | By a total preorder, the reference sort's output is sorted. |
| Views.PrecedesTotalPreorder | model/messageCache.js:152-158 | The rank comparator (count descending, then last timestamp descending, null as 0) is total and transitive. |
| Views.SortedSlotsRank | model/messageCache.js:144-158 | Sorting the collected lines gives a ranking. It has one line per user, each that user's, ordered by the comparator, with the same total. |
| Views.PermutedLines | model/messageCache.js:152-158 | Reordering the lines, as the sort does, still leaves exactly one correct line per user. |
| Views.SortedLinesRank | model/messageCache.js:152-158 | One line per user, in comparator order, is a ranking of the group. |
| Views.RankTotalSort | model/messageCache.js:152-164 | Sorting does not change the sum of the counts. |
| Cache.RankTotalOf | model/messageCache.js:160-164 | The loop's total is the sum of the counts in the ranking. |
| Cache.Group.Rank | model/messageCache.js:143-169 | It has one line per user, including users with no message in the window. Each line has the user's details, count and last timestamp. The lines are ordered by count, then recency. The total is the sum of the counts, and on ascending logs it is the group's window total. |
| Views.RankScenario | model/messageCache.js:143-169 | In a group where user 1 wrote at 10, 20 and 30 and user 2 at 15, the ranking for [0, 100] is user 1 with 3 (last 30), then user 2 with 1 (last 15), total 4. |
| Cache.Group.Sort | model/messageCache.js:171-175 | Every user's log is sorted, as `SortGroup` says, and nothing else changes. |
| Cache.Group.ClearTimestampBefore | model/messageCache.js:177-181 | Every user's log is cleared (`Cleared`). The details and the user set are unchanged. |
| Cache.Group.RecordMessage | model/messageCache.js:218-225 | The sender is created when absent and their details are replaced. The date is appended to their log, and every other user is unchanged. |
| Cache.MessageCache.constructor | model/messageCache.js:187-189 | A new cache is empty. |
| Views.IsValid | model/messageCache.js:191-194 | True exactly when the message, its chat, its sender and its date are all present. |
| Cache.MessageCache.AddMessage | model/messageCache.js:191-228 | It returns true exactly for a message with chat, sender and date. A refused message changes nothing. An accepted one changes the cache to `AddToView` of the old cache. |
| Cache.MessageCache.RecordInGroup | model/messageCache.js:216-225 | In an existing group, the sender's message is recorded, and every other group is unchanged. |
| Views.AddToView | model/messageCache.js:203-228 | The group and the user exist afterwards, both with the message's details. The user's log gains the date at the end. Every other group and every other user is unchanged. |
| Views.AddToViewTotal | model/messageCache.js:203-228 | Ingesting a valid message raises the cache's total by exactly one. |
| Views.AddToViewKeepsAscending | model/messageCache.js:196-228 | Under the arrival assumption (a date never earlier than the sender's last one), every log stays ascending. |
| Cache.MessageCache.SetGroup | model/messageCache.js:238-240 | The id now maps to a fresh group with the details given and no users. Every other group is unchanged. |
| Cache.MessageCache.ReplaceGroupDetails | model/messageCache.js:242-247 | A known group's details are replaced and nothing else changes. It is a no-op for an unknown id. |
| Cache.MessageCache.RankByGroupTimestamp | model/messageCache.js:258-278 | A non-numeric start fails first with the start-time error, then a non-numeric end with the end-time error. An unknown group gives the empty answer. Otherwise the answer is the group's details, total and ranking, as `Group.Rank` states. |
| Cache.MessageCache.Sort | model/messageCache.js:285-289 | The cache becomes `SortCache` of the old cache: every log ascending and a permutation of itself, and nothing else changed. |
| Cache.MessageCache.SortOneGroup | model/messageCache.js:286-288 | One step of the loop: this group's logs are sorted, and every other group is unchanged. |
| Views.SortCache | model/messageCache.js:285-289 | It keeps groups, users and details. Every log is ascending and a permutation of the old log. |
| Views.SortCacheIdempotent | model/messageCache.js:285-289 | Sorting twice is sorting once. |
| Views.SortCacheTotal | model/messageCache.js:285-289 | Sorting does not change the cache's total. |
| Cache.MessageCache.ClearTimestampBefore | model/messageCache.js:291-301 | Every log of every group is cleared (`Cleared`). The groups, users and details are unchanged. |
| Cache.MessageCache.ClearOneGroup | model/messageCache.js:298-300 | One step of the loop: this group is cleared (`GroupCleared`), and every other group is unchanged. |
| Views.ClearNeverIncreases | model/messageCache.js:297-315 | Clearing never raises the cache's total. |
| Views.ClearDropsStale | test/model/testMessageCache.js:176-183 | When some log starts before the threshold, clearing strictly lowers the total. |
| Views.ClearKeepsAscending | model/messageCache.js:297-301 | Clearing keeps ascending logs ascending. |
| Views.ClearEvictsPrefix | model/messageCache.js:291-301 | On ascending logs, clearing keeps exactly the entries at or after the threshold: it frees the old timestamps and nothing else. |
| Cache.MessageCache.TotalNumberOfMessage | model/messageCache.js:309-315 | The result is the sum over all groups of their users' log lengths (`CacheTotal`). |
| Sums.Pick | model/messageCache.js:137-138 | It returns some key of a nonempty set. The source's `Map` is iterated in insertion order; a loop that may take any remaining key covers that order and every other. |

### The older copy

`controller/messageCache.js` is the same cache.

- The same members model it: the searches (lines 5-29), `lastTimestamp` (39-46), `numMsgBetween` (53-67), `name` (69-82), the user's `sort` and `clearTimestampBefore` (84-99), the group's `replaceUserDetails`, `rank`, `sort` and `clearTimestampBefore` (123-177), `isValid` and `addMessage` (187-224), `replaceGroupDetails` (238-243), `rankByGroupTimestamp` (266-286), and the cache's `sort` and `clearTimestampBefore` (298-314).
- It has no `totalNumberOfMessage`.
- Its `name()` tests the name fields for JavaScript truthiness instead of `!_.isEmpty`. For a field that is a string or absent, both tests mean "present and not empty", which is `Profiles.Filled`.
- Its `rankByGroupTimestamp` starts from `{}` and overwrites it for a known group, which is the same answer.

## Left out

- The transport (the Telegram handler) and the facade that picks a controller from the environment are not part of this model. The test files' data generation is not modelled either.
- JavaScript's dynamic typing: an incoming message is a `Message` with optional chat, sender and date. A time argument is `TimeArg`, a number or not. `typeof`, `isNaN` and `undefined` probing are not modelled beyond that.
- A `null` chat, sender or date: `isValid` tests only for `undefined`, so such a message is accepted, and the code then throws a TypeError on `msg.chat.id` for a `null` chat, or pushes `null` onto the log for a `null` date. The model's `None` stands for `undefined` only, and a present field always holds a value.
- Times are integers. Fractional and infinite times, and floating-point arithmetic in `(a + b) / 2`, are left out. For integers, `Math.floor` of the halved sum is Dafny's `/` by 2.
- The thrown errors are modelled by their kind (`Views.QueryError`). Their message text, and the offending value the code appends to it, are not.
- The details objects keep only the id and the three name fields. Other fields (chat type, title, message text) are carried whole by the code and never read, so they are left out.
- `hasUser`, `getUser`, `hasGroup` and `getGroup` are written inline as map membership and lookup.
- The engine's sort algorithm and its stability: ties in the ranking are left unordered. For timestamps, every ascending permutation is the same sequence (`Logs.AscendingPermutationUnique`).
- The order in which a `Map` is iterated: the source iterates in insertion order, but the loops here may take any remaining key (`Sums.Pick`), so every result is proved for every order. Hence the order of tied lines in `rank` is left open, as the line on sort stability says.
- Memory reclamation after `splice`, and concurrency, of which the code has none.
- The commented-out `patch*Details` and `rankByGroupDate` of the older copy.
- Cache.User.NumMsgBetween: on a log that is not ascending, only the guard case is fixed (zero), because what the searches find there depends on which indices they probe.
- Cache.User.ClearTimestampBefore: it follows the corrected guard of the finding below, not the code's `time >= ts[0]`. The code as written is `Logs.ClearAsWritten`. On a log that is not ascending, it states only that a nonempty prefix is removed, for the same reason as above.
- Cache.Group.Rank: the order of lines with the same count and the same last timestamp is left open, as the engine's sort leaves it.
- Cache.MessageCache.RankByGroupTimestamp: it states the ranking only through `RankedBy`, whose counts are pinned only for ascending logs or windows that miss the log.

## Findings

| source | as written | input that shows it | evidently intended | confidence | as-written member | corrected member |
|---|---|---|---|---|---|---|
| model/messageCache.js:97-102 | The guard admits `time == ts[0]`. `bsearchMax(0, len, ts[i] < time)` then returns 0 although `ts[0] < time` is false, and `splice(0, 1)` drops `ts[0]`. The same happens at controller/messageCache.js:91-97. | The log [5, 5, 7] with `clearTimestampBefore(5)` leaves [5, 7]. | Only entries before `time` are freed, so [5, 5, 7] stays whole. The guard would be `time > ts[0]`, which the classes' `ClearTimestampBefore` methods use. `Cache.ClearLogAsWritten` runs the code's own guard and search. | not executed | Logs.OverEvictionExample | Logs.EvictBeforeExact |
