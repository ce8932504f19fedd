/**
 * The crowd aggregation engine of lib/services/crowdAggregation.ts: a
 * time-window filter, a user-first selection, a weighted plurality vote on
 * the crowd level, a weighted mean wait time, the newest-report helper and
 * the relative-age formatter. The clock is the parameter `now`.
 */
module CrowdAggregation {
  import opened Wrappers
  import opened Firestore
  import opened Decimal

  /** Summary returned by `aggregateCrowdData`. */
  datatype AggregatedCrowdData = AggregatedCrowdData(
    crowdLevel: CrowdLevel,
    averageWaitTime: int,
    reportCount: nat,
    lastUpdated: Option<int>,
    userReportCount: nat,
    timeWindowMinutes: int)


  const MsPerMinute: int := 60 * 1000

  // ---------------------------------------------------------------------
  // Weights and the canonical wait table
  // ---------------------------------------------------------------------

  /** Vote weight of a report: user reports count twice, all others once. */
  function Weight(source: Source): nat {
    if source == User then 2 else 1
  }

  /** Tie-break priority: high beats medium beats low. */
  function Rank(level: CrowdLevel): nat {
    match level
    case Low => 0
    case Medium => 1
    case High => 2
  }

  /**
   * The deprecated `estimateWaitingTime` table; `calculateAverageWaitTime`
   * uses the same table for each report.
   */
  function EstimateWaitingTime(level: CrowdLevel): (minutes: nat)
    ensures 10 <= minutes <= 60
  {
    match level
    case Low => 10
    case Medium => 30
    case High => 60
  }

  /** A busier level never has a shorter canonical wait. */
  lemma EstimateWaitingTimeMonotone(a: CrowdLevel, b: CrowdLevel)
    requires Rank(a) < Rank(b)
    ensures EstimateWaitingTime(a) < EstimateWaitingTime(b)
  {
  }

  // ---------------------------------------------------------------------
  // Weighted counts
  // ---------------------------------------------------------------------

  /** Sum of the weights of the reports that vote for `level`. */
  function WeightedCount(reports: seq<CrowdReport>, level: CrowdLevel): nat {
    if reports == [] then 0
    else
      (if reports[0].crowdLevel == level then Weight(reports[0].source) else 0)
      + WeightedCount(reports[1..], level)
  }

  lemma {:induction false} WeightedCountAppend(a: seq<CrowdReport>, b: seq<CrowdReport>, level: CrowdLevel)
    ensures WeightedCount(a + b, level) == WeightedCount(a, level) + WeightedCount(b, level)
  {
    if a == [] {
      assert a + b == b;
    } else {
      assert (a + b)[1..] == a[1..] + b;
      WeightedCountAppend(a[1..], b, level);
    }
  }

  /** Appending one report adds its weight to the count of its own level only. */
  lemma {:induction false} WeightedCountSnoc(a: seq<CrowdReport>, x: CrowdReport)
    ensures forall level: CrowdLevel ::
      WeightedCount(a + [x], level) == WeightedCount(a, level) + (if x.crowdLevel == level then Weight(x.source) else 0)
  {
    forall level: CrowdLevel
      ensures WeightedCount(a + [x], level)
        == WeightedCount(a, level) + (if x.crowdLevel == level then Weight(x.source) else 0)
    {
      WeightedCountAppend(a, [x], level);
      assert [x][1..] == [];
    }
  }

  /** Sum of all report weights. */
  function TotalWeight(reports: seq<CrowdReport>): nat {
    WeightedCount(reports, Low) + WeightedCount(reports, Medium) + WeightedCount(reports, High)
  }

  /** Sum over the reports of canonical wait times weight. */
  function TotalWeightedTime(reports: seq<CrowdReport>): nat {
    EstimateWaitingTime(Low) * WeightedCount(reports, Low)
    + EstimateWaitingTime(Medium) * WeightedCount(reports, Medium)
    + EstimateWaitingTime(High) * WeightedCount(reports, High)
  }

  /** Appending one report adds its weight and its weighted wait to the totals. */
  lemma {:induction false} TotalsSnoc(a: seq<CrowdReport>, x: CrowdReport)
    ensures TotalWeight(a + [x]) == TotalWeight(a) + Weight(x.source)
    ensures TotalWeightedTime(a + [x]) == TotalWeightedTime(a) + EstimateWaitingTime(x.crowdLevel) * Weight(x.source)
  {
    WeightedCountSnoc(a, x);
  }

  /** Every report weighs at least 1 and at most 2. */
  lemma {:induction false} TotalWeightBounds(reports: seq<CrowdReport>)
    ensures |reports| <= TotalWeight(reports) <= 2 * |reports|
  {
    if reports != [] {
      TotalWeightBounds(reports[1..]);
    }
  }

  // ---------------------------------------------------------------------
  // calculateCrowdLevel
  // ---------------------------------------------------------------------

  /**
   * `level` wins the weighted vote: no level has a larger weighted count,
   * and every level with the same count ranks no higher.
   */
  ghost predicate IsPluralityWinner(reports: seq<CrowdReport>, level: CrowdLevel) {
    forall other: CrowdLevel ::
      && WeightedCount(reports, other) <= WeightedCount(reports, level)
      && (WeightedCount(reports, other) == WeightedCount(reports, level) ==> Rank(other) <= Rank(level))
  }

  /** The crowd level `calculateCrowdLevel` returns, as a function of its input. */
  function CrowdLevelOf(reports: seq<CrowdReport>): (level: CrowdLevel)
    ensures reports == [] ==> level == Medium
    ensures reports != [] ==> IsPluralityWinner(reports, level)
  {
    if reports == [] then Medium
    else
      var low, medium, high := WeightedCount(reports, Low), WeightedCount(reports, Medium), WeightedCount(reports, High);
      if high >= medium && high >= low then High
      else if medium >= low then Medium
      else Low
  }

  /** The winner of a non-empty vote is unique, so it is exactly CrowdLevelOf. */
  lemma {:induction false} PluralityWinnerUnique(reports: seq<CrowdReport>, level: CrowdLevel)
    requires reports != []
    ensures IsPluralityWinner(reports, level) <==> level == CrowdLevelOf(reports)
  {
    if IsPluralityWinner(reports, level) {
      var w := CrowdLevelOf(reports);
      assert WeightedCount(reports, w) <= WeightedCount(reports, level);
      assert Rank(w) <= Rank(level) && Rank(level) <= Rank(w);
    }
  }

  /** The `counts` record of `calculateCrowdLevel`: one weighted tally per level. */
  datatype Tally = Tally(low: nat, medium: nat, high: nat) {
    function Get(level: CrowdLevel): nat {
      match level
      case Low => low
      case Medium => medium
      case High => high
    }

    /** `counts[level] += weight` */
    function Add(level: CrowdLevel, weight: nat): (t: Tally)
      ensures t.Get(level) == Get(level) + weight
      ensures forall other: CrowdLevel :: other != level ==> t.Get(other) == Get(other)
    {
      match level
      case Low => this.(low := low + weight)
      case Medium => this.(medium := medium + weight)
      case High => this.(high := high + weight)
    }
  }

  /** `calculateCrowdLevel`: tallies weighted votes in a record, then picks the winner. */
  method CalculateCrowdLevel(reports: seq<CrowdReport>) returns (level: CrowdLevel)
    ensures level == CrowdLevelOf(reports)
    ensures reports == [] ==> level == Medium
    ensures reports != [] ==> IsPluralityWinner(reports, level)
  {
    if |reports| == 0 {
      return Medium;
    }
    var counts := Tally(0, 0, 0);
    assert reports[..0] == [];
    for i := 0 to |reports|
      invariant forall l: CrowdLevel :: counts.Get(l) == WeightedCount(reports[..i], l)
    {
      var report := reports[i];
      var weight := Weight(report.source);
      counts := counts.Add(report.crowdLevel, weight);
      assert reports[..i + 1] == reports[..i] + [report];
      WeightedCountSnoc(reports[..i], report);
    }
    assert reports[..|reports|] == reports;
    if counts.high >= counts.medium && counts.high >= counts.low {
      level := High;
    } else if counts.medium >= counts.low {
      level := Medium;
    } else {
      level := Low;
    }
  }

  // ---------------------------------------------------------------------
  // calculateAverageWaitTime
  // ---------------------------------------------------------------------

  lemma MulMonotone(w: nat, x: int, y: int)
    requires x <= y
    ensures w * x <= w * y
  {
    assert w * y - w * x == w * (y - x);
  }

  /**
   * `Math.round(t / w)` for non-negative `t` and positive `w`: the integer
   * nearest to t/w, halves rounded up.
   */
  function RoundHalfUp(t: nat, w: nat): nat
    requires w > 0
  {
    (2 * t + w) / (2 * w)
  }

  /** RoundHalfUp(t, w) lies within half a unit of t/w, a half rounding up. */
  lemma RoundHalfUpNearest(t: nat, w: nat)
    requires w > 0
    ensures var r: int := RoundHalfUp(t, w); w * (2 * r - 1) <= 2 * t < w * (2 * r + 1)
  {
    var q: int := (2 * t + w) / (2 * w);
    var m := (2 * t + w) % (2 * w);
    assert 2 * t + w == 2 * w * q + m;
    assert w * (2 * q - 1) == 2 * w * q - w;
    assert w * (2 * q + 1) == 2 * w * q + w;
  }

  /** The nearest integer is unique: any `r` within half of t/w is RoundHalfUp(t, w). */
  lemma RoundHalfUpUnique(t: nat, w: nat, r: int)
    requires w > 0
    requires w * (2 * r - 1) <= 2 * t < w * (2 * r + 1)
    ensures RoundHalfUp(t, w) == r
  {
    var s: int := RoundHalfUp(t, w);
    RoundHalfUpNearest(t, w);
    if s > r {
      MulMonotone(w, 2 * r + 1, 2 * s - 1);
    } else if s < r {
      MulMonotone(w, 2 * s + 1, 2 * r - 1);
    }
  }

  /** Rounding an exact multiple gives the multiple back. */
  lemma RoundHalfUpExact(e: nat, w: nat)
    requires w > 0
    ensures RoundHalfUp(e * w, w) == e
  {
    assert w * (2 * e - 1) == 2 * (e * w) - w;
    assert w * (2 * e + 1) == 2 * (e * w) + w;
    RoundHalfUpUnique(e * w, w, e);
  }

  /** Scaling numerator and denominator together does not change the rounding. */
  lemma RoundHalfUpScale(t: nat, w: nat, k: nat)
    requires w > 0 && k > 0
    ensures RoundHalfUp(k * t, k * w) == RoundHalfUp(t, w)
  {
    var s: int := RoundHalfUp(t, w);
    RoundHalfUpNearest(t, w);
    MulMonotone(k, w * (2 * s - 1), 2 * t);
    MulMonotone(k, 2 * t + 1, w * (2 * s + 1));
    assert k * (w * (2 * s - 1)) == (k * w) * (2 * s - 1);
    assert k * (w * (2 * s + 1)) == (k * w) * (2 * s + 1);
    assert k * (2 * t) == 2 * (k * t);
    assert k * (2 * t + 1) == 2 * (k * t) + k;
    RoundHalfUpUnique(k * t, k * w, s);
  }

  /** A rounded mean of values between 10 and 60 stays between 10 and 60. */
  lemma RoundHalfUpBounds(t: nat, w: nat)
    requires w > 0 && 10 * w <= t <= 60 * w
    ensures 10 <= RoundHalfUp(t, w) <= 60
  {
    var r: int := RoundHalfUp(t, w);
    RoundHalfUpNearest(t, w);
    if r > 60 {
      MulMonotone(w, 121, 2 * r - 1);
    }
    if r < 10 {
      MulMonotone(w, 2 * r + 1, 19);
    }
  }

  /** The wait `calculateAverageWaitTime` returns, as a function of its input. */
  function AverageWaitTime(reports: seq<CrowdReport>): (minutes: int)
    ensures reports == [] ==> minutes == 30
    ensures 10 <= minutes <= 60
  {
    if reports == [] then 30
    else
      TotalWeightBounds(reports);
      RoundHalfUpBounds(TotalWeightedTime(reports), TotalWeight(reports));
      RoundHalfUp(TotalWeightedTime(reports), TotalWeight(reports))
  }

  /** A non-empty list's wait is the rounded ratio of its two totals. */
  lemma {:induction false} AverageWaitTimeNonEmpty(reports: seq<CrowdReport>)
    requires reports != []
    ensures TotalWeight(reports) > 0
    ensures AverageWaitTime(reports) == RoundHalfUp(TotalWeightedTime(reports), TotalWeight(reports))
  {
    TotalWeightBounds(reports);
  }

  /**
   * The wait of a non-empty list is the weighted mean of the canonical
   * waits, rounded half up: within half a minute of T/W, where T is the sum
   * of wait times weight and W the sum of weights.
   */
  lemma {:induction false} AverageWaitTimeIsRoundedMean(reports: seq<CrowdReport>)
    requires reports != []
    ensures var minutes, t, w := AverageWaitTime(reports), TotalWeightedTime(reports), TotalWeight(reports);
      w > 0 && w * (2 * minutes - 1) <= 2 * t < w * (2 * minutes + 1)
  {
    AverageWaitTimeNonEmpty(reports);
    RoundHalfUpNearest(TotalWeightedTime(reports), TotalWeight(reports));
  }

  /** `calculateAverageWaitTime`: accumulates weighted wait and weight, then rounds. */
  method CalculateAverageWaitTime(reports: seq<CrowdReport>) returns (minutes: int)
    ensures minutes == AverageWaitTime(reports)
    ensures reports == [] ==> minutes == 30
    ensures 10 <= minutes <= 60
  {
    if |reports| == 0 {
      return 30;
    }
    var totalWeightedTime: nat := 0;
    var totalWeight: nat := 0;
    for i := 0 to |reports|
      invariant totalWeightedTime == TotalWeightedTime(reports[..i])
      invariant totalWeight == TotalWeight(reports[..i])
    {
      var report := reports[i];
      var weight := Weight(report.source);
      var waitTime := EstimateWaitingTime(report.crowdLevel);
      totalWeightedTime := totalWeightedTime + waitTime * weight;
      totalWeight := totalWeight + weight;
      assert reports[..i + 1] == reports[..i] + [report];
      TotalsSnoc(reports[..i], report);
    }
    assert reports[..|reports|] == reports;
    TotalWeightBounds(reports);
    minutes := RoundHalfUp(totalWeightedTime, totalWeight);
  }

  /** When every report names the same level, the mean wait is that level's table entry. */
  lemma {:induction false} UniformLevelWait(reports: seq<CrowdReport>, level: CrowdLevel)
    requires reports != []
    requires forall i :: 0 <= i < |reports| ==> reports[i].crowdLevel == level
    ensures AverageWaitTime(reports) == EstimateWaitingTime(level)
  {
    forall other: CrowdLevel | other != level
      ensures WeightedCount(reports, other) == 0
    {
      NoVotesForOther(reports, level, other);
    }
    TotalWeightBounds(reports);
    var w := TotalWeight(reports);
    assert TotalWeightedTime(reports) == EstimateWaitingTime(level) * w;
    RoundHalfUpExact(EstimateWaitingTime(level), w);
  }

  lemma {:induction false} NoVotesForOther(reports: seq<CrowdReport>, level: CrowdLevel, other: CrowdLevel)
    requires other != level
    requires forall i :: 0 <= i < |reports| ==> reports[i].crowdLevel == level
    ensures WeightedCount(reports, other) == 0
  {
    if reports != [] {
      assert reports[0].crowdLevel == level;
      NoVotesForOther(reports[1..], level, other);
    }
  }

  // ---------------------------------------------------------------------
  // The 2x weighting on a single-tier subset
  // ---------------------------------------------------------------------

  /** The same reports, each re-tagged as seed data (weight 1). */
  function AsSeed(reports: seq<CrowdReport>): (seeded: seq<CrowdReport>)
    ensures |seeded| == |reports|
    ensures forall i :: 0 <= i < |reports| ==> seeded[i] == reports[i].(source := Seed)
  {
    if reports == [] then [] else [reports[0].(source := Seed)] + AsSeed(reports[1..])
  }

  lemma {:induction false} AllUserDoublesCounts(reports: seq<CrowdReport>, level: CrowdLevel)
    requires forall i :: 0 <= i < |reports| ==> reports[i].source == User
    ensures WeightedCount(reports, level) == 2 * WeightedCount(AsSeed(reports), level)
  {
    if reports != [] {
      assert reports[0].source == User;
      assert AsSeed(reports)[1..] == AsSeed(reports[1..]);
      AllUserDoublesCounts(reports[1..], level);
    }
  }

  /**
   * After the user-first selection the subset is single-tier; there the 2x
   * weighting does not change the level.
   */
  lemma {:induction false} AllUserWeightKeepsLevel(reports: seq<CrowdReport>)
    requires forall i :: 0 <= i < |reports| ==> reports[i].source == User
    ensures CrowdLevelOf(reports) == CrowdLevelOf(AsSeed(reports))
  {
    AllUserDoublesCounts(reports, Low);
    AllUserDoublesCounts(reports, Medium);
    AllUserDoublesCounts(reports, High);
  }

  /** Nor does it change the rounded mean wait. */
  lemma {:induction false} AllUserWeightKeepsWait(reports: seq<CrowdReport>)
    requires forall i :: 0 <= i < |reports| ==> reports[i].source == User
    ensures AverageWaitTime(reports) == AverageWaitTime(AsSeed(reports))
  {
    var seeded := AsSeed(reports);
    AllUserDoublesCounts(reports, Low);
    AllUserDoublesCounts(reports, Medium);
    AllUserDoublesCounts(reports, High);
    if reports != [] {
      var t, w := TotalWeightedTime(seeded), TotalWeight(seeded);
      assert TotalWeight(reports) == 2 * w;
      assert TotalWeightedTime(reports) == 2 * t;
      TotalWeightBounds(seeded);
      RoundHalfUpScale(t, w, 2);
      assert RoundHalfUp(TotalWeightedTime(reports), TotalWeight(reports)) == RoundHalfUp(t, w);
      AverageWaitTimeNonEmpty(reports);
      assert seeded != [];
      AverageWaitTimeNonEmpty(seeded);
      assert AverageWaitTime(reports) == AverageWaitTime(seeded);
    } else {
      assert seeded == [];
    }
  }

  // ---------------------------------------------------------------------
  // Filters used by aggregateCrowdData
  // ---------------------------------------------------------------------

  /** `reports.filter(r => r.timestamp >= cutoff)`. */
  function Recent(reports: seq<CrowdReport>, cutoff: int): (recent: seq<CrowdReport>)
    ensures |recent| <= |reports|
  {
    if reports == [] then []
    else
      (if reports[0].timestamp >= cutoff then [reports[0]] else []) + Recent(reports[1..], cutoff)
  }

  /** `reports.filter(r => r.source === 'user')`. */
  function UserReports(reports: seq<CrowdReport>): (users: seq<CrowdReport>)
    ensures |users| <= |reports|
  {
    if reports == [] then []
    else
      (if reports[0].source == User then [reports[0]] else []) + UserReports(reports[1..])
  }

  /** `reports.filter(r => r.source !== 'user')`. */
  function OtherReports(reports: seq<CrowdReport>): (others: seq<CrowdReport>)
    ensures |others| <= |reports|
  {
    if reports == [] then []
    else
      (if reports[0].source != User then [reports[0]] else []) + OtherReports(reports[1..])
  }

  /** The window filter keeps every windowed report (with its multiplicity) and nothing else. */
  lemma {:induction false} RecentMultiset(reports: seq<CrowdReport>, cutoff: int)
    ensures forall r :: multiset(Recent(reports, cutoff))[r] == if r.timestamp >= cutoff then multiset(reports)[r] else 0
  {
    if reports != [] {
      RecentMultiset(reports[1..], cutoff);
      assert reports == [reports[0]] + reports[1..];
    }
  }

  /** The user filter keeps exactly the user reports. */
  lemma {:induction false} UserReportsMultiset(reports: seq<CrowdReport>)
    ensures forall r :: multiset(UserReports(reports))[r] == if r.source == User then multiset(reports)[r] else 0
  {
    if reports != [] {
      UserReportsMultiset(reports[1..]);
      assert reports == [reports[0]] + reports[1..];
    }
  }

  /** The non-user filter keeps exactly the other reports. */
  lemma {:induction false} OtherReportsMultiset(reports: seq<CrowdReport>)
    ensures forall r :: multiset(OtherReports(reports))[r] == if r.source != User then multiset(reports)[r] else 0
  {
    if reports != [] {
      OtherReportsMultiset(reports[1..]);
      assert reports == [reports[0]] + reports[1..];
    }
  }

  lemma {:induction false} RecentAppend(a: seq<CrowdReport>, b: seq<CrowdReport>, cutoff: int)
    ensures Recent(a + b, cutoff) == Recent(a, cutoff) + Recent(b, cutoff)
  {
    if a == [] {
      assert a + b == b;
    } else {
      assert (a + b)[0] == a[0];
      assert (a + b)[1..] == a[1..] + b;
      RecentAppend(a[1..], b, cutoff);
      var rx := if a[0].timestamp >= cutoff then [a[0]] else [];
      assert Recent(a + b, cutoff) == rx + Recent(a[1..] + b, cutoff);
      assert Recent(a, cutoff) == rx + Recent(a[1..], cutoff);
    }
  }

  lemma {:induction false} UserReportsAppend(a: seq<CrowdReport>, b: seq<CrowdReport>)
    ensures UserReports(a + b) == UserReports(a) + UserReports(b)
  {
    if a == [] {
      assert a + b == b;
    } else {
      assert (a + b)[0] == a[0];
      assert (a + b)[1..] == a[1..] + b;
      UserReportsAppend(a[1..], b);
      var ux := if a[0].source == User then [a[0]] else [];
      assert UserReports(a + b) == ux + UserReports(a[1..] + b);
      assert UserReports(a) == ux + UserReports(a[1..]);
    }
  }

  /** Without user reports the non-user filter keeps everything. */
  lemma {:induction false} OtherReportsOfNoUsers(reports: seq<CrowdReport>)
    requires UserReports(reports) == []
    ensures OtherReports(reports) == reports
  {
    if reports != [] {
      UserReportsAppend([reports[0]], reports[1..]);
      assert [reports[0]] + reports[1..] == reports;
      OtherReportsOfNoUsers(reports[1..]);
    }
  }

  /** Filtering by time and by source commute. */
  lemma {:induction false} RecentUserReportsCommute(reports: seq<CrowdReport>, cutoff: int)
    ensures Recent(UserReports(reports), cutoff) == UserReports(Recent(reports, cutoff))
  {
    if reports != [] {
      RecentUserReportsCommute(reports[1..], cutoff);
      var x := reports[0];
      var ux := if x.source == User then [x] else [];
      var rx := if x.timestamp >= cutoff then [x] else [];
      RecentAppend(ux, UserReports(reports[1..]), cutoff);
      UserReportsAppend(rx, Recent(reports[1..], cutoff));
    }
  }

  // ---------------------------------------------------------------------
  // getLastUpdatedTime
  // ---------------------------------------------------------------------

  function Max(a: int, b: int): int {
    if a >= b then a else b
  }

  /** `getLastUpdatedTime`: the newest timestamp, or null for no reports. */
  function GetLastUpdatedTime(reports: seq<CrowdReport>): (last: Option<int>)
    ensures last.None? <==> reports == []
    ensures last.Some? ==> exists i :: 0 <= i < |reports| && reports[i].timestamp == last.value
    ensures last.Some? ==> forall i :: 0 <= i < |reports| ==> reports[i].timestamp <= last.value
  {
    if reports == [] then None
    else
      match GetLastUpdatedTime(reports[1..])
      case None => Some(reports[0].timestamp)
      case Some(newest) => Some(Max(reports[0].timestamp, newest))
  }

  // ---------------------------------------------------------------------
  // aggregateCrowdData
  // ---------------------------------------------------------------------

  /** The oldest timestamp a window of `timeWindowMinutes` still admits at `now`. */
  function Cutoff(timeWindowMinutes: int, now: int): int {
    now - timeWindowMinutes * MsPerMinute
  }

  /** The subset the vote and the mean are computed from: user reports if any, otherwise the rest. */
  function ReportsToUse(recent: seq<CrowdReport>): seq<CrowdReport> {
    var userReports := UserReports(recent);
    if |userReports| > 0 then userReports else OtherReports(recent)
  }

  /** The summary `aggregateCrowdData` builds from the reports inside the window. */
  function Summarize(recent: seq<CrowdReport>, timeWindowMinutes: int): AggregatedCrowdData {
    var reportsToUse := ReportsToUse(recent);
    AggregatedCrowdData(
      CrowdLevelOf(reportsToUse),
      AverageWaitTime(reportsToUse),
      |recent|,
      GetLastUpdatedTime(recent),
      |UserReports(recent)|,
      timeWindowMinutes)
  }

  /** `aggregateCrowdData(reports, timeWindowMinutes)` evaluated at time `now`. */
  function AggregateCrowdData(reports: seq<CrowdReport>, timeWindowMinutes: int, now: int): (result: AggregatedCrowdData)
    ensures result.timeWindowMinutes == timeWindowMinutes
    ensures result.userReportCount <= result.reportCount <= |reports|
    ensures 10 <= result.averageWaitTime <= 60
    ensures result.lastUpdated.None? <==> result.reportCount == 0
    ensures result.lastUpdated.Some? ==>
      && result.lastUpdated.value >= now - timeWindowMinutes * 60000
      && (exists i :: 0 <= i < |reports| && reports[i].timestamp == result.lastUpdated.value)
  {
    var recent := Recent(reports, Cutoff(timeWindowMinutes, now));
    var result := Summarize(recent, timeWindowMinutes);
    RecentMultiset(reports, Cutoff(timeWindowMinutes, now));
    UserReportsMultiset(recent);
    assert result.lastUpdated.Some? ==>
      && result.lastUpdated.value >= now - timeWindowMinutes * 60000
      && exists i :: 0 <= i < |reports| && reports[i].timestamp == result.lastUpdated.value
    by {
      if result.lastUpdated.Some? {
        var i :| 0 <= i < |recent| && recent[i].timestamp == result.lastUpdated.value;
        assert multiset(recent)[recent[i]] > 0;
        assert recent[i] in multiset(reports);
        var j :| 0 <= j < |reports| && reports[j] == recent[i];
      }
    }
    result
  }

  /** No reports at all gives the documented defaults. */
  lemma AggregateEmpty(timeWindowMinutes: int, now: int)
    ensures AggregateCrowdData([], timeWindowMinutes, now)
         == AggregatedCrowdData(Medium, 30, 0, None, 0, timeWindowMinutes)
  {
  }

  /** A report older than the window changes nothing, wherever it sits in the input. */
  lemma {:induction false} StaleReportIgnored(a: seq<CrowdReport>, x: CrowdReport, b: seq<CrowdReport>, timeWindowMinutes: int, now: int)
    requires x.timestamp < now - timeWindowMinutes * 60000
    ensures AggregateCrowdData(a + [x] + b, timeWindowMinutes, now) == AggregateCrowdData(a + b, timeWindowMinutes, now)
  {
    var cutoff := Cutoff(timeWindowMinutes, now);
    RecentAppend(a + [x], b, cutoff);
    RecentAppend(a, [x], cutoff);
    RecentAppend(a, b, cutoff);
    assert Recent([x], cutoff) == [];
    assert Recent(a + [x] + b, cutoff) == Recent(a + b, cutoff);
  }

  /**
   * A report inside the window (including one dated in the future) is
   * counted once more, and the newest timestamp is at least its own.
   */
  lemma {:induction false} WindowedReportCounted(a: seq<CrowdReport>, x: CrowdReport, b: seq<CrowdReport>, timeWindowMinutes: int, now: int)
    requires x.timestamp >= now - timeWindowMinutes * 60000
    ensures var with, without := AggregateCrowdData(a + [x] + b, timeWindowMinutes, now), AggregateCrowdData(a + b, timeWindowMinutes, now);
      && with.reportCount == without.reportCount + 1
      && with.userReportCount == without.userReportCount + (if x.source == User then 1 else 0)
      && with.lastUpdated.Some?
      && with.lastUpdated.value >= x.timestamp
  {
    var cutoff := Cutoff(timeWindowMinutes, now);
    RecentAppend(a + [x], b, cutoff);
    RecentAppend(a, [x], cutoff);
    RecentAppend(a, b, cutoff);
    var ra, rb := Recent(a, cutoff), Recent(b, cutoff);
    assert Recent([x], cutoff) == [x];
    assert Recent(a + [x] + b, cutoff) == ra + [x] + rb;
    UserReportsAppend(ra + [x], rb);
    UserReportsAppend(ra, [x]);
    UserReportsAppend(ra, rb);
    var recent := ra + [x] + rb;
    assert recent[|ra|] == x;
  }

  /** With a non-negative window, a report dated after `now` is always counted. */
  lemma {:induction false} FutureReportCounted(a: seq<CrowdReport>, x: CrowdReport, b: seq<CrowdReport>, timeWindowMinutes: int, now: int)
    requires timeWindowMinutes >= 0 && x.timestamp > now
    ensures AggregateCrowdData(a + [x] + b, timeWindowMinutes, now).reportCount
         == AggregateCrowdData(a + b, timeWindowMinutes, now).reportCount + 1
  {
    WindowedReportCounted(a, x, b, timeWindowMinutes, now);
  }

  /** Some report in the window is a user report. */
  ghost predicate HasRecentUserReport(reports: seq<CrowdReport>, timeWindowMinutes: int, now: int) {
    exists i :: 0 <= i < |reports| && reports[i].source == User && reports[i].timestamp >= now - timeWindowMinutes * 60000
  }

  lemma {:induction false} RecentUserReportsNonEmpty(reports: seq<CrowdReport>, timeWindowMinutes: int, now: int)
    requires HasRecentUserReport(reports, timeWindowMinutes, now)
    ensures |UserReports(Recent(reports, Cutoff(timeWindowMinutes, now)))| > 0
  {
    var cutoff := Cutoff(timeWindowMinutes, now);
    var i :| 0 <= i < |reports| && reports[i].source == User && reports[i].timestamp >= cutoff;
    RecentMultiset(reports, cutoff);
    UserReportsMultiset(Recent(reports, cutoff));
    assert reports[i] in multiset(reports);
    assert multiset(UserReports(Recent(reports, cutoff)))[reports[i]] > 0;
  }

  /** A user report among the windowed ones comes from a user report in the window. */
  lemma {:induction false} RecentUserReportsNonEmptyConverse(reports: seq<CrowdReport>, timeWindowMinutes: int, now: int)
    requires |UserReports(Recent(reports, Cutoff(timeWindowMinutes, now)))| > 0
    ensures HasRecentUserReport(reports, timeWindowMinutes, now)
  {
    var recent := Recent(reports, Cutoff(timeWindowMinutes, now));
    var users := UserReports(recent);
    RecentMultiset(reports, Cutoff(timeWindowMinutes, now));
    UserReportsMultiset(recent);
    var r := users[0];
    assert multiset(users)[r] > 0;
    assert r.source == User && multiset(recent)[r] > 0;
    assert r in multiset(reports);
    var i :| 0 <= i < |reports| && reports[i] == r;
  }

  /**
   * User priority: once a user report is in the window, the level and the
   * wait are those of the user reports alone (all other reports dropped).
   */
  lemma {:induction false} UserReportsDecide(reports: seq<CrowdReport>, timeWindowMinutes: int, now: int)
    requires HasRecentUserReport(reports, timeWindowMinutes, now)
    ensures var all, users := AggregateCrowdData(reports, timeWindowMinutes, now), AggregateCrowdData(UserReports(reports), timeWindowMinutes, now);
      && all.crowdLevel == users.crowdLevel
      && all.averageWaitTime == users.averageWaitTime
      && all.userReportCount == users.reportCount
    ensures var all, users := AggregateCrowdData(reports, timeWindowMinutes, now), UserReports(Recent(reports, Cutoff(timeWindowMinutes, now)));
      && all.crowdLevel == CrowdLevelOf(users)
      && all.averageWaitTime == AverageWaitTime(users)
  {
    var cutoff := Cutoff(timeWindowMinutes, now);
    RecentUserReportsNonEmpty(reports, timeWindowMinutes, now);
    RecentUserReportsCommute(reports, cutoff);
    var ru := Recent(UserReports(reports), cutoff);
    assert ru == UserReports(Recent(reports, cutoff));
    UserReportsIdempotent(Recent(reports, cutoff));
    assert UserReports(ru) == ru;
  }

  lemma {:induction false} UserReportsIdempotent(reports: seq<CrowdReport>)
    ensures UserReports(UserReports(reports)) == UserReports(reports)
  {
    if reports != [] {
      var x := reports[0];
      var ux := if x.source == User then [x] else [];
      UserReportsAppend(ux, UserReports(reports[1..]));
      UserReportsIdempotent(reports[1..]);
    }
  }

  /**
   * User priority, the other way round: while a user report is in the
   * window, adding a non-user report anywhere leaves level and wait unchanged.
   */
  lemma {:induction false} NonUserReportIgnored(a: seq<CrowdReport>, x: CrowdReport, b: seq<CrowdReport>, timeWindowMinutes: int, now: int)
    requires x.source != User
    requires HasRecentUserReport(a + b, timeWindowMinutes, now)
    ensures var with, without := AggregateCrowdData(a + [x] + b, timeWindowMinutes, now), AggregateCrowdData(a + b, timeWindowMinutes, now);
      && with.crowdLevel == without.crowdLevel
      && with.averageWaitTime == without.averageWaitTime
      && with.userReportCount == without.userReportCount
  {
    var cutoff := Cutoff(timeWindowMinutes, now);
    RecentAppend(a + [x], b, cutoff);
    RecentAppend(a, [x], cutoff);
    RecentAppend(a, b, cutoff);
    var ra, rx, rb := Recent(a, cutoff), Recent([x], cutoff), Recent(b, cutoff);
    UserReportsAppend(ra + rx, rb);
    UserReportsAppend(ra, rx);
    UserReportsAppend(ra, rb);
    assert UserReports(rx) == [] by {
      if rx != [] {
        assert rx == [x];
        assert UserReports([x]) == [] + UserReports([x][1..]);
      }
    }
    assert UserReports(Recent(a + [x] + b, cutoff)) == UserReports(Recent(a + b, cutoff));
    RecentUserReportsNonEmpty(a + b, timeWindowMinutes, now);
  }

  /** Without a user report in the window, every windowed report votes. */
  lemma {:induction false} NoUserReportsUseAll(reports: seq<CrowdReport>, timeWindowMinutes: int, now: int)
    requires !HasRecentUserReport(reports, timeWindowMinutes, now)
    ensures var result, recent := AggregateCrowdData(reports, timeWindowMinutes, now), Recent(reports, Cutoff(timeWindowMinutes, now));
      && result.userReportCount == 0
      && result.crowdLevel == CrowdLevelOf(recent)
      && result.averageWaitTime == AverageWaitTime(recent)
  {
    var recent := Recent(reports, Cutoff(timeWindowMinutes, now));
    var users := UserReports(recent);
    if users != [] {
      RecentUserReportsNonEmptyConverse(reports, timeWindowMinutes, now);
    }
    OtherReportsOfNoUsers(recent);
  }

  // ---------------------------------------------------------------------
  // The order of the input does not matter
  // ---------------------------------------------------------------------

  lemma {:induction false} WeightedCountPermutation(a: seq<CrowdReport>, b: seq<CrowdReport>, level: CrowdLevel)
    requires multiset(a) == multiset(b)
    ensures WeightedCount(a, level) == WeightedCount(b, level)
    decreases |a|
  {
    if a == [] {
      assert |b| == |multiset(b)| == 0;
    } else {
      var x := a[0];
      assert a == [x] + a[1..];
      assert x in multiset(b) by {
        assert x in multiset(a);
      }
      var k :| 0 <= k < |b| && b[k] == x;
      var left, right := b[..k], b[k + 1..];
      assert b == left + [x] + right;
      assert multiset(a) == multiset{x} + multiset(a[1..]);
      assert multiset(b) == multiset(left) + multiset{x} + multiset(right);
      assert multiset(left + right) == multiset(left) + multiset(right);
      forall r ensures multiset(a[1..])[r] == multiset(left + right)[r] {
        assert multiset(a)[r] == multiset{x}[r] + multiset(a[1..])[r];
        assert multiset(b)[r] == multiset(left)[r] + multiset{x}[r] + multiset(right)[r];
      }
      assert multiset(a[1..]) == multiset(left + right);
      WeightedCountPermutation(a[1..], left + right, level);
      WeightedCountAppend(left, right, level);
      WeightedCountAppend(left + [x], right, level);
      WeightedCountAppend(left, [x], level);
      WeightedCountAppend([x], a[1..], level);
    }
  }

  /** The vote and the mean depend only on the multiset of reports. */
  lemma {:induction false} VotePermutation(a: seq<CrowdReport>, b: seq<CrowdReport>)
    requires multiset(a) == multiset(b)
    ensures CrowdLevelOf(a) == CrowdLevelOf(b)
    ensures AverageWaitTime(a) == AverageWaitTime(b)
  {
    assert |a| == |multiset(a)| == |multiset(b)| == |b|;
    WeightedCountPermutation(a, b, Low);
    WeightedCountPermutation(a, b, Medium);
    WeightedCountPermutation(a, b, High);
    if a != [] {
      AverageWaitTimeNonEmpty(a);
      AverageWaitTimeNonEmpty(b);
    }
  }

  lemma {:induction false} GetLastUpdatedTimePermutation(a: seq<CrowdReport>, b: seq<CrowdReport>)
    requires multiset(a) == multiset(b)
    ensures GetLastUpdatedTime(a) == GetLastUpdatedTime(b)
  {
    assert |a| == |multiset(a)| == |multiset(b)| == |b|;
    if a != [] {
      var ma, mb := GetLastUpdatedTime(a).value, GetLastUpdatedTime(b).value;
      var i :| 0 <= i < |a| && a[i].timestamp == ma;
      var j :| 0 <= j < |b| && b[j].timestamp == mb;
      assert a[i] in multiset(b) by {
        assert a[i] in multiset(a);
      }
      assert b[j] in multiset(a) by {
        assert b[j] in multiset(b);
      }
      var i' :| 0 <= i' < |b| && b[i'] == a[i];
      var j' :| 0 <= j' < |a| && a[j'] == b[j];
    }
  }

  /** Two windows holding the same reports give the same summary. */
  lemma {:induction false} SummarizePermutation(ra: seq<CrowdReport>, rb: seq<CrowdReport>, timeWindowMinutes: int)
    requires multiset(ra) == multiset(rb)
    ensures Summarize(ra, timeWindowMinutes) == Summarize(rb, timeWindowMinutes)
  {
    var ua, ub := UserReports(ra), UserReports(rb);
    UserReportsMultiset(ra);
    UserReportsMultiset(rb);
    assert forall r :: multiset(ua)[r] == multiset(ub)[r];
    assert multiset(ua) == multiset(ub);
    var oa, ob := OtherReports(ra), OtherReports(rb);
    OtherReportsMultiset(ra);
    OtherReportsMultiset(rb);
    assert forall r :: multiset(oa)[r] == multiset(ob)[r];
    assert multiset(oa) == multiset(ob);
    assert |ra| == |multiset(ra)| == |multiset(rb)| == |rb|;
    assert |ua| == |multiset(ua)| == |multiset(ub)| == |ub|;
    VotePermutation(ReportsToUse(ra), ReportsToUse(rb));
    GetLastUpdatedTimePermutation(ra, rb);
  }

  /**
   * The order in which the store hands over the reports does not matter:
   * two inputs holding the same reports aggregate to the same summary.
   */
  lemma {:induction false} AggregateOrderIndependent(a: seq<CrowdReport>, b: seq<CrowdReport>, timeWindowMinutes: int, now: int)
    requires multiset(a) == multiset(b)
    ensures AggregateCrowdData(a, timeWindowMinutes, now) == AggregateCrowdData(b, timeWindowMinutes, now)
  {
    var cutoff := Cutoff(timeWindowMinutes, now);
    RecentMultiset(a, cutoff);
    RecentMultiset(b, cutoff);
    assert forall r :: multiset(Recent(a, cutoff))[r] == multiset(Recent(b, cutoff))[r];
    assert multiset(Recent(a, cutoff)) == multiset(Recent(b, cutoff));
    SummarizePermutation(Recent(a, cutoff), Recent(b, cutoff), timeWindowMinutes);
  }

  // ---------------------------------------------------------------------
  // formatTimestamp
  // ---------------------------------------------------------------------

  /** What `formatTimestamp` returns: a relative phrase, or a calendar date rendered by the locale library. */
  datatype FormattedTimestamp = Relative(text: string) | AbsoluteDate(timestamp: int)

  const MsPerHour: int := 3600000
  const MsPerDay: int := 86400000

  /** `${n} unit${n > 1 ? 's' : ''} ago` */
  function Ago(n: nat, unit: string): string {
    NatToString(n) + " " + unit + (if n > 1 then "s" else "") + " ago"
  }

  /**
   * `r` says "N unit(s) ago" where N is the whole number of `unitMs` periods
   * in `ageMs`, and the plural "s" appears exactly when N exceeds 1.
   */
  ghost predicate SaysAgo(r: FormattedTimestamp, ageMs: int, unitMs: nat, unit: string) {
    exists n: nat ::
      && n * unitMs <= ageMs < (n + 1) * unitMs
      && r == Relative(NatToString(n) + " " + unit + (if n > 1 then "s" else "") + " ago")
  }

  /** `formatTimestamp(timestamp)` evaluated at time `now`. */
  function FormatTimestamp(timestamp: int, now: int): (r: FormattedTimestamp)
    ensures now - timestamp < 60000 <==> r == Relative("Just now")
    ensures 60000 <= now - timestamp < 3600000 ==> SaysAgo(r, now - timestamp, 60000, "minute")
    ensures 3600000 <= now - timestamp < 86400000 ==> SaysAgo(r, now - timestamp, 3600000, "hour")
    ensures 86400000 <= now - timestamp < 7 * 86400000 ==> SaysAgo(r, now - timestamp, 86400000, "day")
    ensures now - timestamp >= 7 * 86400000 <==> r == AbsoluteDate(timestamp)
  {
    var diffMs := now - timestamp;
    // Dafny's `/` rounds toward negative infinity for a positive divisor, as Math.floor does.
    var diffMins := diffMs / MsPerMinute;
    var diffHours := diffMs / MsPerHour;
    var diffDays := diffMs / MsPerDay;
    if diffMins < 1 then Relative("Just now")
    else if diffMins < 60 then Relative(Ago(diffMins, "minute"))
    else if diffHours < 24 then Relative(Ago(diffHours, "hour"))
    else if diffDays < 7 then Relative(Ago(diffDays, "day"))
    else AbsoluteDate(timestamp)
  }

  // ---------------------------------------------------------------------
  // Worked examples
  // ---------------------------------------------------------------------

  function Report(level: CrowdLevel, source: Source, timestamp: int): CrowdReport {
    CrowdReport("r", "office", level, timestamp, None, source)
  }

  /** One user `high` and one user `low` tie at 2; the tie goes to `high`. */
  lemma TieGoesHigh(now: int)
    ensures CrowdLevelOf([Report(High, User, now), Report(Low, User, now)]) == High
  {
    var reports := [Report(High, User, now), Report(Low, User, now)];
    var tail := reports[1..];
    assert tail[1..] == [];
    assert WeightedCount(tail, High) == 0 && WeightedCount(tail, Low) == 2 && WeightedCount(tail, Medium) == 0;
    assert WeightedCount(reports, High) == 2 && WeightedCount(reports, Low) == 2 && WeightedCount(reports, Medium) == 0;
  }

  /** Three user reports low, low, high: round((10 + 10 + 60) / 3) = 27. */
  lemma RoundingExample(now: int)
    ensures AverageWaitTime([Report(Low, User, now), Report(Low, User, now), Report(High, User, now)]) == 27
  {
    var reports := [Report(Low, User, now), Report(Low, User, now), Report(High, User, now)];
    var tail := reports[1..];
    var last := tail[1..];
    assert last[1..] == [];
    assert WeightedCount(last, Low) == 0 && WeightedCount(last, Medium) == 0 && WeightedCount(last, High) == 2;
    assert WeightedCount(tail, Low) == 2 && WeightedCount(tail, Medium) == 0 && WeightedCount(tail, High) == 2;
    assert WeightedCount(reports, Low) == 4 && WeightedCount(reports, Medium) == 0 && WeightedCount(reports, High) == 2;
    AverageWaitTimeNonEmpty(reports);
    assert RoundHalfUp(160, 6) == 27;
  }

  lemma FormatExamples(now: int)
    ensures FormatTimestamp(now - 30000, now) == Relative("Just now")
    ensures FormatTimestamp(now - 90000, now) == Relative("1 minute ago")
    ensures FormatTimestamp(now - 7200000, now) == Relative("2 hours ago")
    ensures FormatTimestamp(now - 8 * 86400000, now) == AbsoluteDate(now - 8 * 86400000)
  {
  }
}
