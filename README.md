# Crowd aggregation engine and nearby-office search

A Dafny model of the aggregation engine of a crowd-reporting app for public
offices, together with its nearby-office search.

- **Crowd reports** (`Firestore`) each carry a crowd level (`low`, `medium`,
  `high`), a millisecond timestamp and a source tag.
- **`CrowdAggregation`** models `lib/services/crowdAggregation.ts`. It keeps the
  reports of the last `timeWindowMinutes`. If any of them comes from a user,
  only the user reports are used; otherwise the rest are used. From that subset
  it takes a weighted plurality vote for the level and a weighted, rounded mean
  for the wait time. User reports weigh 2 and all others 1. Ties go to high,
  then medium, then low. The engine also reports the newest timestamp and
  formats report ages as "N minutes ago".
  `calculateCrowdLevel` and `calculateAverageWaitTime` are loops in the source.
  They are methods here, each proved equal to a specification function
  (`CrowdLevelOf`, `AverageWaitTime`). The rest of the engine is pure and is
  written as functions over those specifications.
- **`Maps`** models `findNearbyOffices` of `lib/services/maps.ts`. It annotates
  each office with its distance from the user, keeps those within the radius,
  and sorts them with a stable sort on distance. The distance function is a
  parameter.
- **`Decimal`** renders a natural number in base ten, the way a template
  literal prints an integral number.
- **`Wrappers`** holds `Option`, which stands for the source's `null`.

Reading of the source:
- The current time (`Date.now()`, `new Date()`) is an explicit parameter `now`.
- Report `source` is a closed datatype `User | Seed | System | Untagged`.
  `submitCrowdReport` (lib/firebase/firestore.ts:133-150) stores no `source`
  field, so a report submitted through the app fails `source === 'user'`. Such
  a report is `Untagged` and weighs 1. The comments of
  lib/services/crowdAggregation.ts:17 and :92 speak only of user and
  seed/system reports; the model keeps the fourth, untagged case the code
  can meet.
- `Math.round(T / W)` for whole `T >= 0` and `W > 0` is `(2T + W) div (2W)`
  (`RoundHalfUp`). This is exact, with no floating point.
- `Math.floor(diff / unit)` is Dafny's `/`, which also floors negative ages
  when the divisor is positive.

## Model

| member | source | states |
|---|---|---|
| CrowdAggregation.EstimateWaitingTime | lib/services/crowdAggregation.ts:80-87 | the canonical wait of a level lies between 10 and 60 minutes |
| CrowdAggregation.EstimateWaitingTimeMonotone | lib/services/crowdAggregation.ts:80-87 | a busier level has a strictly longer canonical wait (low < medium < high) |
| CrowdAggregation.WeightedCountAppend | lib/services/crowdAggregation.ts:32-35 | the weighted count of a level over a concatenation is the sum of the counts of the parts |
| CrowdAggregation.WeightedCountSnoc | lib/services/crowdAggregation.ts:32-35 | one more report adds its weight (2 for user, else 1) to its own level's count and leaves the other two counts alone |
| CrowdAggregation.TotalsSnoc | lib/services/crowdAggregation.ts:65-70 | one more report adds its weight to the total weight and its wait times weight to the total weighted time |
| CrowdAggregation.TotalWeightBounds | lib/services/crowdAggregation.ts:66 | the total weight of n reports lies between n and 2n |
| CrowdAggregation.CrowdLevelOf | lib/services/crowdAggregation.ts:20-45 | an empty list gives medium; a non-empty list gives a level whose weighted count is at least the other two, beating every tied level of lower rank |
| CrowdAggregation.PluralityWinnerUnique | lib/services/crowdAggregation.ts:37-44 | for a non-empty list, a level is the plurality winner (with the high, medium, low tie-break) if and only if it is the level returned |
| CrowdAggregation.Tally.Add | lib/services/crowdAggregation.ts:34 | `counts[level] += weight` raises that level's count by the weight and leaves the other counts unchanged |
| CrowdAggregation.CalculateCrowdLevel | lib/services/crowdAggregation.ts:20-45 | the loop over the counts record returns exactly CrowdLevelOf of the input, so medium for no reports and the weighted plurality winner otherwise |
| CrowdAggregation.RoundHalfUpNearest | lib/services/crowdAggregation.ts:72 | the rounded quotient r of t/w satisfies r - 1/2 <= t/w < r + 1/2, so halves round up as Math.round does |
| CrowdAggregation.RoundHalfUpUnique | lib/services/crowdAggregation.ts:72 | any integer within half a unit of t/w (a half rounding up) is the rounded quotient |
| CrowdAggregation.RoundHalfUpExact | lib/services/crowdAggregation.ts:72 | rounding an exact quotient gives it back |
| CrowdAggregation.RoundHalfUpScale | lib/services/crowdAggregation.ts:72 | scaling numerator and denominator by the same positive factor leaves the rounding unchanged |
| CrowdAggregation.RoundHalfUpBounds | lib/services/crowdAggregation.ts:72 | a rounded mean of values between 10 and 60 lies between 10 and 60 |
| CrowdAggregation.AverageWaitTime | lib/services/crowdAggregation.ts:51-73 | an empty list gives 30 minutes; every result lies between 10 and 60 |
| CrowdAggregation.AverageWaitTimeIsRoundedMean | lib/services/crowdAggregation.ts:62-72 | for a non-empty list the result is within half a minute of the weighted mean of the canonical waits |
| CrowdAggregation.CalculateAverageWaitTime | lib/services/crowdAggregation.ts:51-73 | the accumulating loop returns exactly AverageWaitTime of the input: 30 for no reports, the rounded weighted mean otherwise, always within 10..60 |
| CrowdAggregation.UniformLevelWait | lib/services/crowdAggregation.ts:56-72 | when every report names the same level, the mean wait is that level's table entry |
| CrowdAggregation.NoVotesForOther | lib/services/crowdAggregation.ts:32-35 | a level no report names gets a weighted count of zero |
| CrowdAggregation.AllUserDoublesCounts | lib/services/crowdAggregation.ts:33 | for an all-user list, each weighted count is twice the unweighted count |
| CrowdAggregation.AllUserWeightKeepsLevel | lib/services/crowdAggregation.ts:20-45 | on an all-user list the double weight does not change the chosen level |
| CrowdAggregation.AllUserWeightKeepsWait | lib/services/crowdAggregation.ts:51-73 | on an all-user list the double weight does not change the rounded mean wait |
| CrowdAggregation.RecentMultiset | lib/services/crowdAggregation.ts:101 | the window filter keeps exactly the reports with timestamp >= the cutoff, each with its multiplicity |
| CrowdAggregation.UserReportsMultiset | lib/services/crowdAggregation.ts:104 | the user filter keeps exactly the reports whose source is user |
| CrowdAggregation.OtherReportsMultiset | lib/services/crowdAggregation.ts:105 | the non-user filter keeps exactly the reports whose source is not user |
| CrowdAggregation.RecentAppend | lib/services/crowdAggregation.ts:101 | the window filter distributes over concatenation |
| CrowdAggregation.UserReportsAppend | lib/services/crowdAggregation.ts:104 | the user filter distributes over concatenation |
| CrowdAggregation.OtherReportsOfNoUsers | lib/services/crowdAggregation.ts:105-108 | with no user reports, the non-user subset is the whole windowed list |
| CrowdAggregation.RecentUserReportsCommute | lib/services/crowdAggregation.ts:101-104 | filtering by window and by source commute |
| CrowdAggregation.UserReportsIdempotent | lib/services/crowdAggregation.ts:104 | filtering user reports twice is filtering once |
| CrowdAggregation.GetLastUpdatedTime | lib/services/crowdAggregation.ts:136-141 | null if and only if the list is empty; otherwise the timestamp of some report, at least every report's timestamp |
| CrowdAggregation.AggregateCrowdData | lib/services/crowdAggregation.ts:94-131 | the window size is echoed; userReportCount <= reportCount <= the input size; the wait lies in 10..60; lastUpdated is null exactly when no report is in the window, and otherwise is an input timestamp no older than the cutoff |
| CrowdAggregation.AggregateEmpty | lib/services/crowdAggregation.ts:94-131 | no reports give medium, 30 minutes, 0 reports, null, 0 user reports and the echoed window |
| CrowdAggregation.StaleReportIgnored | lib/services/crowdAggregation.ts:99-101 | inserting a report older than the window anywhere in the input leaves the whole summary unchanged |
| CrowdAggregation.WindowedReportCounted | lib/services/crowdAggregation.ts:101-128 | inserting a report inside the window raises reportCount by one, raises userReportCount by one exactly when it is a user report, and makes lastUpdated at least its timestamp |
| CrowdAggregation.FutureReportCounted | lib/services/crowdAggregation.ts:101-120 | a report dated after now is counted when the window is non-negative |
| CrowdAggregation.RecentUserReportsNonEmpty | lib/services/crowdAggregation.ts:101-108 | a user report inside the window makes the windowed user subset non-empty |
| CrowdAggregation.RecentUserReportsNonEmptyConverse | lib/services/crowdAggregation.ts:101-108 | a non-empty windowed user subset comes from a user report inside the window |
| CrowdAggregation.UserReportsDecide | lib/services/crowdAggregation.ts:104-128 | with a user report in the window, level and wait are CrowdLevelOf and AverageWaitTime of the windowed user reports, equal those of aggregating the user reports alone, and userReportCount is their count |
| CrowdAggregation.NonUserReportIgnored | lib/services/crowdAggregation.ts:104-119 | with a user report in the window, inserting any non-user report leaves level, wait and userReportCount unchanged |
| CrowdAggregation.NoUserReportsUseAll | lib/services/crowdAggregation.ts:107-119 | with no user report in the window, userReportCount is 0 and level and wait come from all windowed reports |
| CrowdAggregation.WeightedCountPermutation | lib/services/crowdAggregation.ts:32-35 | the weighted count of a level depends only on the multiset of reports |
| CrowdAggregation.VotePermutation | lib/services/crowdAggregation.ts:20-73 | the level and the mean wait depend only on the multiset of reports |
| CrowdAggregation.GetLastUpdatedTimePermutation | lib/services/crowdAggregation.ts:136-141 | the newest timestamp depends only on the multiset of reports |
| CrowdAggregation.SummarizePermutation | lib/services/crowdAggregation.ts:103-130 | two windowed lists with the same reports give the same summary |
| CrowdAggregation.AggregateOrderIndependent | lib/services/crowdAggregation.ts:94-131 | the order in which the reports arrive does not change the summary |
| CrowdAggregation.FormatTimestamp | lib/services/crowdAggregation.ts:146-169 | an age under a minute (negative ages included) gives "Just now" and nothing else does; ages under an hour, a day and a week give "N minute(s)/hour(s)/day(s) ago" with N the whole number of units and an "s" only when N > 1; an age of a week or more gives the absolute date and nothing else does |
| CrowdAggregation.TieGoesHigh | lib/services/crowdAggregation.ts:38-39 | one user high report and one user low report tie at 2 and give high |
| CrowdAggregation.RoundingExample | lib/services/crowdAggregation.ts:72 | user reports low, low, high give round(80 / 3) = 27 minutes |
| CrowdAggregation.FormatExamples | lib/services/crowdAggregation.ts:154-167 | 30 s gives "Just now", 90 s gives "1 minute ago", 2 h gives "2 hours ago", 8 days gives the absolute date |
| Decimal.NatToString | lib/services/crowdAggregation.ts:157 | the text of a number is non-empty, all digits and has no leading zero |
| Decimal.ParseNatToString | lib/services/crowdAggregation.ts:157 | the text of a number reads back as that number |
| Maps.Annotate | lib/services/maps.ts:56-60 | one entry per office, in order, holding the office unchanged and calculateDistance of the user and its coordinates |
| Maps.WithinRadiusMultiset | lib/services/maps.ts:61 | the radius filter keeps exactly the offices with distance <= radiusKm, each with its multiplicity |
| Maps.InsertByDistanceSorted | lib/services/maps.ts:62 | inserting into a list sorted by distance keeps it sorted |
| Maps.SortByDistance | lib/services/maps.ts:62 | the sort is a permutation of its input and is sorted by non-decreasing distance |
| Maps.AtDistanceAppend | lib/services/maps.ts:62 | the offices at a given distance in a concatenation are those of the first part followed by those of the second |
| Maps.InsertByDistanceStable | lib/services/maps.ts:62 | an inserted office goes before every office already at its own distance |
| Maps.SortByDistanceStable | lib/services/maps.ts:62 | the sort is stable: offices at equal distance keep their input order |
| Maps.AtDistanceWithinRadius | lib/services/maps.ts:61 | the radius filter keeps the offices at a distance within the radius in order, and none at a distance beyond it |
| Maps.WithinRadiusMembers | lib/services/maps.ts:61 | every kept entry comes from the input and is within the radius, and every input entry within the radius is kept |
| Maps.SortByDistanceMembers | lib/services/maps.ts:62 | sorting keeps the length, and every entry of the input is in the output and vice versa |
| Maps.FindNearbyOffices | lib/services/maps.ts:50-63 | the output is sorted by non-decreasing distance and is a permutation of the annotated offices within the radius |
| Maps.NearbyMembers | lib/services/maps.ts:56-62 | for any list annotated as the map step does, filtering and sorting gives an output no longer than the input; every entry is within the radius, holds an input office and carries that office's computed distance; and every office within the radius appears with its distance |
| Maps.FindNearbyOfficesMembers | lib/services/maps.ts:50-63 | the output is no longer than the input; every entry is within the radius, holds an input office with its fields unchanged and carries calculateDistance of the user and that office; every input office within the radius appears |
| Maps.FindNearbyOfficesStable | lib/services/maps.ts:56-62 | offices at an equal distance within the radius appear in input order, and none appear at a distance beyond it |

## Left out

- `calculateDistance` (lib/services/maps.ts:5-22): the Haversine formula is floating-point trigonometry. It is a function parameter, so all properties hold for every distance function.
- `getCurrentLocation` (lib/services/maps.ts:27-44): browser geolocation I/O.
- The absolute-date branch of `formatTimestamp`: `toLocaleDateString('en-IN', …)` belongs to the locale library. The model returns the opaque `AbsoluteDate(timestamp)`.
- `console.log` in `aggregateCrowdData`: it does not affect the result.
- Firestore queries and writes, and everything outside the two service files except the report type: these are I/O.
- Numbers are exact integers and reals rather than IEEE doubles. NaN, infinities and precision loss are not modelled. Neither is Math.max's limit on spread arguments for very long lists.
- Missing or non-numeric timestamps: the model's timestamp is always an integer. In the code, a missing timestamp fails `r.timestamp >= cutoff` and the report is dropped from the window.
- Default parameters: `timeWindowMinutes` (default 60) and `radiusKm` (default 10) are explicit arguments of the model; JavaScript default arguments are not modelled.
- CrowdAggregation.Recent, CrowdAggregation.UserReports, CrowdAggregation.OtherReports and Maps.WithinRadius: their own contracts bound only the length. What they keep is stated by the RecentMultiset, UserReportsMultiset, OtherReportsMultiset, WithinRadiusMultiset and WithinRadiusMembers lemmas.
