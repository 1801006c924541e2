# citifix page logic in Dafny

citifix is a civic-complaint portal. Citizens file complaints, such as a
pothole or a broken street light. The community votes on them, and
administrators assign them to departments and resolve them. Resolving a
complaint earns its owner reward points. This project models the decision and
derivation logic inside five of its React pages and proves what those pages
promise:

- **Admin analytics** (`AdminAnalytics`). It sanitises the loaded complaints
  and filters them by department. It then derives the three status counts, a
  per-day trend in ascending date order, and the count per department over
  the fixed list of seven departments. It also picks the five users with the
  most points.
- **Admin dashboard** (`AdminDashboard`). The list composes a status filter, a
  department (category) filter and a case-insensitive text search, and shows
  the result newest first. Changing a status awards 10 points when the
  complaint becomes resolved. Assigning a department is one patch that also
  sets the status to `assigned`.
- **Community portal** (`CommunityPortal`). It sorts by votes or by recency on
  a copy and decides what a vote leads to. It also has the "Trending" badge
  and the disabled-vote-button rule.
- **Leaderboard** (`Leaderboard`). It ranks users by reward points, with a
  missing value counting as 0, and maps ranks to an icon, a card style and a
  rank number.
- **Citizen dashboard** (`CitizenDashboard`). It shows the user's own
  complaints, how many of them are resolved, and the user's points.

Shared modules:

- `Domain` holds the records and the store calls.
- `Seqs` models `Array.prototype.filter` and `filter(...).length`.
- `Sorting` is a stable sort by a descending integer key. It exists both as a
  function (`SortDesc`) and as an in-place array method (`SortByKeyDesc`)
  proved equal to it. JavaScript's `Array.prototype.sort` is stable, so one
  stable sort stands for every `sort` call with a subtracting comparator. An
  ascending sort (the analytics trend) is the descending sort on the negated
  key.

The store (`getComplaints`, `getUsers`, `updateComplaint`, `updateUserPoints`,
`voteComplaint`) is outside the model:

- What it returns is a parameter of the page operations.
- The four pages kept as classes (analytics, admin dashboard, community
  portal, leaderboard) append what they ask of it to a `log` of
  `StoreCall`s. The citizen dashboard is modelled as functions of the store's
  list and records no call.

The pages' code is imperative where it sorts in place or mutates state, and
the model keeps that form:

- `loadedUsers.sort` and `allUsers.sort` sort the caller's array.
- The dashboard's `result.sort` sorts the store's own array when no filter is
  on, so `complaints` and `filtered` are arrays that can alias.
- The trend is built in a loop that fills a dictionary.
- The handlers are methods on small classes, with invariants over the log.

## Model

| member | source | states |
|---|---|---|
| Domain.Points | src/pages/AdminAnalytics.jsx:57 | `rewardPoints \|\| 0`: the points are the stored value, or 0 when there is none |
| Domain.Recency | src/pages/AdminDashboard.jsx:53 | the sort key `new Date(createdAt)` of both newest-first sorts; the order it gives is stated by `AdminDashboard.ListedIsSortedSelection` and `CommunityPortal.SortComplaints` |
| AdminAnalytics.Sanitize | src/pages/AdminAnalytics.jsx:49-53 | the sanitised list is no longer than the loaded one and holds only records with a category, a status and a creation time |
| AdminAnalytics.Usable | src/pages/AdminAnalytics.jsx:51 | the test `c && c.category && c.status && c.createdAt`; what it keeps is stated by `AdminAnalytics.SanitizeKeeps` |
| AdminAnalytics.SanitizeKeeps | src/pages/AdminAnalytics.jsx:50-52 | a complaint survives sanitising exactly when it was loaded and has a category, a status and a creation time |
| AdminAnalytics.SanitizeAppend | src/pages/AdminAnalytics.jsx:50-52 | sanitising distributes over concatenation, so the survivors keep their original order |
| AdminAnalytics.TopUsers | src/pages/AdminAnalytics.jsx:55-59 | `sort` by points then `slice(0, 5)`; its properties are stated by `AdminAnalytics.TopUsersAreBest` |
| AdminAnalytics.TopUsersAreBest | src/pages/AdminAnalytics.jsx:55-59 | the top list has min(n, 5) users, all loaded, ordered by non-increasing points; every loaded user left out has no more points than the fifth |
| AdminAnalytics.Page.Mount | src/pages/AdminAnalytics.jsx:45-60 | the complaints are the sanitised load (an empty list when the load is falsy); the users array is sorted in place by points and the first five are kept; the filter starts at `all`; the store is asked for complaints, then users |
| AdminAnalytics.Page.SetDepartmentFilter | src/pages/AdminAnalytics.jsx:132 | the department select replaces the filter |
| AdminAnalytics.FilteredComplaints | src/pages/AdminAnalytics.jsx:63-67 | the `useMemo` department filter; what it keeps is stated by `AdminAnalytics.FilteredComplaintsSelects` |
| AdminAnalytics.FilteredComplaintsSelects | src/pages/AdminAnalytics.jsx:63-67 | `all` yields the whole list; a department yields exactly the complaints of that category, each of them of that category |
| AdminAnalytics.CountStatuses | src/pages/AdminAnalytics.jsx:70-74 | open + assigned + resolved is at most the number of complaints, with equality exactly when every status is one of the three (no complaint is counted twice) |
| AdminAnalytics.DayOf | src/pages/AdminAnalytics.jsx:84 | the UTC calendar day of a timestamp, as `toISOString().split('T')[0]` gives it; the per-day counts built on it are stated by `AdminAnalytics.TallyDays` and `AdminAnalytics.BuildTrend` |
| AdminAnalytics.TallyOne | src/pages/AdminAnalytics.jsx:85-87 | one more dated complaint increments its own day's count and leaves every other day alone; an undated one changes nothing |
| AdminAnalytics.TallyDays | src/pages/AdminAnalytics.jsx:78-88 | the dictionary's keys are exactly the listed days, which are distinct; each key maps to that day's count, which is at least 1; every day without a complaint is absent |
| AdminAnalytics.TallyPointsCover | src/pages/AdminAnalytics.jsx:84-90 | the dictionary's values are one point per day, each with its day's count ≥ 1, and every validly dated complaint's day is among them |
| AdminAnalytics.TallyValues | src/pages/AdminAnalytics.jsx:78-90 | `Object.values(map)` after the loop: distinct days, counts ≥ 1 equal to the day counts, every dated complaint's day present |
| AdminAnalytics.BuildTrend | src/pages/AdminAnalytics.jsx:77-93 | the trend is strictly ascending by day, each count is ≥ 1 and equals the number of complaints created that day, every dated complaint's day appears, and the counts add up to the number of complaints with a valid date |
| AdminAnalytics.SortedTrend | src/pages/AdminAnalytics.jsx:90-92 | sorting the tallied points by date makes the days strictly ascending and keeps every point |
| AdminAnalytics.TrendTotal | src/pages/AdminAnalytics.jsx:80-88 | any list of distinct days that covers every dated complaint and carries the day counts adds up to the number of dated complaints, so undated complaints are skipped |
| AdminAnalytics.DatedSplit | src/pages/AdminAnalytics.jsx:80-88 | the dated complaints split into those of one day and the dated ones of all other days |
| AdminAnalytics.OtherDayCount | src/pages/AdminAnalytics.jsx:80-88 | removing one day's complaints leaves every other day's count unchanged |
| AdminAnalytics.CountByDepartment | src/pages/AdminAnalytics.jsx:96-101 | exactly seven entries, in the order of the department list, each counting the complaints of its category (zero counts included) |
| AdminAnalytics.CountByDepartmentTotal | src/pages/AdminAnalytics.jsx:96-101 | the department counts add up to the number of complaints whose category is one of the seven departments |
| AdminAnalytics.CountSumOverNames | src/pages/AdminAnalytics.jsx:96-101 | over distinct names, the per-name counts add up to the count of complaints whose category is one of the names |
| AdminAnalytics.CountByDepartmentUnderFilter | src/pages/AdminAnalytics.jsx:63-101 | with a department selected, that department counts every filtered complaint and every other department counts zero |
| AdminDashboard.WithFilterReplacesOnly | src/pages/AdminDashboard.jsx:56-58 | a filter change sets the named field to the value and leaves the other two fields unchanged |
| AdminDashboard.WithFilterLastWins | src/pages/AdminDashboard.jsx:56-58 | two changes of one field keep the last value; changes of two different fields commute |
| AdminDashboard.WithFilter | src/pages/AdminDashboard.jsx:56-58 | the state update of `handleFilterChange`; stated by `AdminDashboard.WithFilterReplacesOnly` and `AdminDashboard.WithFilterLastWins` |
| AdminDashboard.Lower | src/pages/AdminDashboard.jsx:49-50 | lowercasing keeps the length and maps each character on its own |
| AdminDashboard.LowerIdempotent | src/pages/AdminDashboard.jsx:49-50 | lowercasing twice is lowercasing once |
| AdminDashboard.ContainsSlice | src/pages/AdminDashboard.jsx:49-50 | `includes` finds the empty string in every string, and any piece of a string in that string |
| AdminDashboard.MatchesIgnoresCase | src/pages/AdminDashboard.jsx:47-52 | the search gives the same answer for a search text and its lowercase form, and a piece of a complaint's title always matches it |
| AdminDashboard.Matches | src/pages/AdminDashboard.jsx:47-52 | the search test on title and description; stated by `AdminDashboard.MatchesIgnoresCase` |
| AdminDashboard.StepsAreFilters | src/pages/AdminDashboard.jsx:40-52 | each of the three steps is a filter by its own predicate, and a step that is off (`all` or empty search) keeps everything |
| AdminDashboard.Selected | src/pages/AdminDashboard.jsx:39-52 | the three filter steps of the effect; stated by `AdminDashboard.SelectedKeeps` and `AdminDashboard.SelectedMembers` |
| AdminDashboard.SelectedKeeps | src/pages/AdminDashboard.jsx:39-52 | the three steps in sequence equal one filter by the conjunction of the three conditions, so store order is kept |
| AdminDashboard.SelectedMembers | src/pages/AdminDashboard.jsx:39-52 | a complaint is selected exactly when it is in the store and passes status, category and search; with no filter on, the whole store is selected |
| AdminDashboard.DepartmentFilterIgnoresAssignment | src/pages/AdminDashboard.jsx:44-46 | the department filter reads the category: changing the assigned department never changes whether a complaint is listed |
| AdminDashboard.ListedIsSortedSelection | src/pages/AdminDashboard.jsx:39-53 | the list is a permutation of the selected complaints ordered by non-increasing creation time |
| AdminDashboard.Listed | src/pages/AdminDashboard.jsx:39-53 | the list the filter effect sets; stated by `AdminDashboard.ListedIsSortedSelection` |
| AdminDashboard.StatusChangeCalls | src/pages/AdminDashboard.jsx:60-72 | the first call is the status patch; the 10-point award is issued exactly when the update succeeded and the status is `resolved`; the reload happens exactly when the update succeeded |
| AdminDashboard.AssignCalls | src/pages/AdminDashboard.jsx:74-81 | a single patch sets both `assignedDepartment` and status `assigned`; no award is issued; the reload happens exactly when the update succeeded |
| AdminDashboard.HandlersKeepAwardsTied | src/pages/AdminDashboard.jsx:60-81 | after either handler every award in the log is of 10 points and directly follows a patch that sets status `resolved` |
| AdminDashboard.ArrayOf | src/pages/AdminDashboard.jsx:42 | `filter` returns a new array holding the selection |
| AdminDashboard.OffersResolve | src/pages/AdminDashboard.jsx:295 | the "Mark as Resolved" button is shown for a complaint that is not resolved; it guards `AdminDashboard.Dashboard.ResolveSelected` |
| AdminDashboard.Dashboard.Mount | src/pages/AdminDashboard.jsx:33-54 | both lists are the store's array, which the first run of the filter effect sorts newest first in place; the filters are off; nothing is selected |
| AdminDashboard.Dashboard.Refilter | src/pages/AdminDashboard.jsx:39-54 | the list is the selection sorted newest first; with no filter on it is the store's array itself, reordered; otherwise it is a new array and the store's array is untouched |
| AdminDashboard.Dashboard.HandleFilterChange | src/pages/AdminDashboard.jsx:56-58 | the filters take the change and the list is recomputed from the store's complaints; with no filter on the list is the store's array itself, reordered, and otherwise the store's array is untouched |
| AdminDashboard.Dashboard.Choose | src/pages/AdminDashboard.jsx:172 | opening a complaint's dialog selects it |
| AdminDashboard.Dashboard.HandleStatusChange | src/pages/AdminDashboard.jsx:60-72 | the log grows by exactly the status-change calls; on success the reloaded array replaces the complaints, the dialog closes and the list is recomputed from it, aliasing it with no filter on and leaving it untouched otherwise; on failure nothing else changes; awards stay tied to resolutions |
| AdminDashboard.Dashboard.HandleAssignDepartment | src/pages/AdminDashboard.jsx:74-81 | the log grows by exactly the assignment calls; on success the reloaded array replaces the complaints, the dialog closes and the list is recomputed, with the same aliasing as a status change; on failure nothing else changes |
| AdminDashboard.Dashboard.ResolveSelected | src/pages/AdminDashboard.jsx:295-298 | offered only when the selected complaint is not resolved; logs the resolving calls; on success the reloaded array replaces the complaints, the dialog closes and the list is recomputed with the filters kept; on failure the selection and lists are kept |
| CommunityPortal.SortComplaints | src/pages/CommunityPortal.jsx:23-32 | `Most Voted` and `Most Recent` give a permutation ordered by non-increasing votes and by non-increasing creation time; any other value gives the list unchanged |
| CommunityPortal.MostVotedIsStable | src/pages/CommunityPortal.jsx:26 | complaints with equal votes keep their store order |
| CommunityPortal.IsTrending | src/pages/CommunityPortal.jsx:113 | the "Trending" badge for more than 20 votes; stated by `CommunityPortal.TrendingComeFirst` |
| CommunityPortal.TrendingComeFirst | src/pages/CommunityPortal.jsx:113 | under `Most Voted` the complaints with more than 20 votes form a prefix of the list |
| CommunityPortal.VoteDisabled | src/pages/CommunityPortal.jsx:145 | the vote button's `disabled` test; stated by `CommunityPortal.VoteDisabledByOwnVote` |
| CommunityPortal.VoteDisabledByOwnVote | src/pages/CommunityPortal.jsx:145 | nobody logged out sees a disabled button; adding an id to `votedBy` disables the button for that user exactly |
| CommunityPortal.VoteOutcomeOf | src/pages/CommunityPortal.jsx:34-47 | no user: login prompt; reply without error: counted; reply with an error: that error shown; no reply at all: the `TypeError` |
| CommunityPortal.VoteCalls | src/pages/CommunityPortal.jsx:34-47 | no user: no store call; otherwise the vote in the user's own name first, and a reload exactly when the vote was counted |
| CommunityPortal.VotesStayWithUser | src/pages/CommunityPortal.jsx:35-39 | every vote ever logged is cast in the logged-in user's name, and a logged-out visitor adds nothing to the log |
| CommunityPortal.Portal.Mount | src/pages/CommunityPortal.jsx:17-21 | the list is the store's complaints sorted by votes |
| CommunityPortal.Portal.ChangeFilter | src/pages/CommunityPortal.jsx:17-21 | a new value refetches and rearranges; setting the current value again changes nothing; the list is always the last fetch in the current arrangement |
| CommunityPortal.Portal.HandleVote | src/pages/CommunityPortal.jsx:34-47 | the outcome and the calls are as above; only a counted vote replaces the list, re-sorted with the current filter; an error leaves it unchanged |
| Leaderboard.Board.Mount | src/pages/Leaderboard.jsx:11-15 | the fetched array is sorted in place by points and is the list shown; the store is asked for users once |
| Leaderboard.RankingPermutesAndOrders | src/pages/Leaderboard.jsx:12-14 | the ranking is a permutation of the fetched users with the same length, ordered by non-increasing points (missing points count as 0) |
| Leaderboard.RankIconFor | src/pages/Leaderboard.jsx:17-22 | `getRankIcon`; stated by `Leaderboard.TopThreeStandOut` |
| Leaderboard.CardStyle | src/pages/Leaderboard.jsx:24-29 | `getCardStyle`; stated by `Leaderboard.CardStylesDiffer` and `Leaderboard.TopThreeStandOut` |
| Leaderboard.CardStylesDiffer | src/pages/Leaderboard.jsx:24-29 | the four card styles are pairwise different |
| Leaderboard.TopThreeStandOut | src/pages/Leaderboard.jsx:17-29 | trophy exactly for rank 0, medal exactly for ranks 1 and 2, star exactly from rank 3; ranks 0 to 2 each have a style of their own, and every rank from 3 shares one |
| Leaderboard.Rows | src/pages/Leaderboard.jsx:52-91 | one card per user, with rank number `index + 1`, the points or 0, and that rank's icon and style |
| Leaderboard.RowsOfRanking | src/pages/Leaderboard.jsx:52-91 | on the ranked list the rank numbers run 1, 2, 3, … without gaps, the shown points never increase down the list, and only the first card has the trophy |
| CitizenDashboard.OwnComplaints | src/pages/CitizenDashboard.jsx:15 | the user's list is no longer than the store and holds only complaints with the user's id |
| CitizenDashboard.OwnComplaintsExactly | src/pages/CitizenDashboard.jsx:15 | a complaint is in the user's list exactly when it is in the store and owned by the user |
| CitizenDashboard.Stats | src/pages/CitizenDashboard.jsx:17-33 | resolved ≤ total ≤ store size; total counts the user's complaints and resolved counts those of them that are resolved, with equality exactly when all of them are resolved; points are the stored value or 0 |
| CitizenDashboard.OthersComplaintsIgnored | src/pages/CitizenDashboard.jsx:14-33 | inserting another user's complaint anywhere in the store changes none of the three figures |
| CitizenDashboard.StatsFromOwnOnly | src/pages/CitizenDashboard.jsx:14-33 | the figures computed from the user's own complaints alone equal those computed from the whole store |
| Sorting.SortByKeyDesc | src/pages/Leaderboard.jsx:13 | the in-place sort leaves the array equal to the stable descending sort of its old contents |
| Sorting.SortedCopy | src/pages/AdminAnalytics.jsx:90-92 | a new array filled from the list and sorted in place holds the stable descending sort of the list |
| Sorting.SortDescPermutes | src/pages/AdminAnalytics.jsx:57 | sorting keeps every element exactly as often as before |
| Sorting.SortDescSorted | src/pages/AdminAnalytics.jsx:57 | the sorted list is non-increasing in the key |
| Sorting.SortDescStable | src/pages/AdminAnalytics.jsx:57 | elements with equal keys keep their relative order |
| Sorting.SortDescStrict | src/pages/AdminAnalytics.jsx:90-92 | with distinct keys, the sorted list is strictly decreasing in the key |
| Seqs.FilterMembers | src/pages/AdminAnalytics.jsx:66 | an element is kept by `filter` exactly when it is in the list and passes the test |
| Seqs.FilterFilter | src/pages/AdminDashboard.jsx:40-52 | two filters in a row equal one filter by both tests |
| Seqs.CountDisjoint | src/pages/AdminAnalytics.jsx:70-74 | counts over two tests that never both hold add up to the count over either test |

## Left out

- The store (`@/utils/storage.js`) is not part of this model. Its answers are
  parameters and its calls are logged. So vote de-duplication, any points
  floor, `votes == |votedBy|` and persistence are not modelled.
- Presentation is left out: JSX markup, Tailwind classes other than the
  leaderboard card styles, animation, Helmet, toasts as UI, dialogs, the
  Leaflet map and the recharts charts (including the pie-label percentages,
  which are floating point).
- React scheduling is left out. Each effect is modelled as running right after
  the state change that triggers it, inside the handler or constructor that
  makes that change. `useMemo` values are functions of the state.
- JavaScript `Date` is left out: string parsing, time zones and the
  ±8.64e15 ms range. A creation time is `Missing` (falsy), `Unparseable` (an
  invalid date) or `At(ms)`. The `YYYY-MM-DD` key of `toISOString` is the UTC
  day number `ms / 86400000`, rounded down.
- Domain.Recency: an invalid date makes the JavaScript comparator return
  NaN, and the resulting order depends on the engine. The model ranks such a
  complaint as if it were created at the epoch.
- AdminAnalytics.Usable: a creation time given as the number 0 is falsy in
  JavaScript and is dropped by sanitising. The model cannot express that
  case, because `At(0)` counts as present.
- AdminDashboard.Lower: `toLowerCase` is modelled on ASCII letters only;
  Unicode case mapping is left out.
- A `getComplaints()` or `getUsers()` that returns `null` on the admin
  dashboard, the community portal, the leaderboard or the citizen dashboard
  (its unguarded `complaints.filter`) would make those pages throw. The model takes arrays there. Only the analytics page guards with
  `|| []`, and that guard is modelled.
- The citizen dashboard's own `getComplaints()` call is not recorded: the
  page is modelled as functions of the list that call returns.
- The citizen dashboard reads `user.id` without a guard. The model takes a
  logged-in `User` there.
- Fields the pages only display are left out: `userName`, `email`,
  `location`, `address` and `image`.
- AdminDashboard.Dashboard.Choose: closing the dialog (`onOpenChange`) is the
  same assignment with `None`.
