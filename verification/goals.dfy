/** Progress of a savings goal against the calendar
    (`GoalTracker.calculate_goal_progress`). Instants are whole seconds,
    dates are day numbers; a date given as text stands for its midnight. */
module Goals {
  import opened Basics

  /** How far the saved amount is ahead of, or behind, the elapsed time. */
  datatype Status = Ahead | OnTrack | Behind

  /** The display marker of each status. */
  function StatusEmoji(s: Status): string {
    match s
    case Ahead => "\U{1F680}"
    case OnTrack => "\U{2705}"
    case Behind => "\U{26A0}\U{FE0F}"
  }

  /** The metrics reported for one goal. */
  datatype GoalProgress = GoalProgress(
    progressPct: real,
    timeProgressPct: real,
    amountNeeded: real,
    daysRemaining: int,
    dailyRateNeeded: real,
    monthlyRateNeeded: real,
    status: Status,
    statusEmoji: string,
    targetInstant: int,
    isAchievable: bool)

  /** A goal without a start date is taken to have started a year (365
      days) before now. */
  const DefaultSpanDays: int := 365

  /** A daily saving above this is no longer considered achievable. */
  const MaxDailySaving: real := 1000.0

  function StartInstant(startDay: Option<int>, now: int): (s: int)
    ensures startDay.None? ==> s == now - DefaultSpanDays * SecondsPerDay
    ensures startDay.Some? ==> s == Midnight(startDay.value)
    ensures startDay.None? ==> WholeDays(now, s) == DefaultSpanDays && s < now
    ensures startDay.Some? ==> DayOf(s) == startDay.value && s == Midnight(DayOf(s))
  {
    match startDay
    case None => now - DefaultSpanDays * SecondsPerDay
    case Some(d) => Midnight(d)
  }

  /** `part` as a percentage of a positive `whole`. */
  function Percent(part: real, whole: real): (p: real)
    requires whole > 0.0
    ensures p * whole == part * 100.0
  {
    part / whole * 100.0
  }

  /** A larger part is a larger percentage of the same whole. */
  lemma PercentMonotone(a: real, b: real, whole: real)
    requires a <= b && whole > 0.0
    ensures Percent(a, whole) <= Percent(b, whole)
  {
    var pa, pb := Percent(a, whole), Percent(b, whole);
    assert (pb - pa) * whole == (b - a) * 100.0;
  }

  /** The whole is a hundred percent of itself. */
  lemma PercentOfWhole(whole: real)
    requires whole > 0.0
    ensures Percent(whole, whole) == 100.0
  {
  }

  /** The daily amount that spreads `amount` over `days`, counting fewer
      than one day as one. */
  function PerDay(amount: real, days: int): (d: real)
    ensures d * (if days > 1 then days else 1) as real == amount
  {
    amount / (if days > 1 then days else 1) as real
  }

  /** The status from the two percentages: ahead when the saved share is at
      least the elapsed share of time, on track within nine tenths of it,
      behind otherwise. */
  function Assess(progress: real, timeProgress: real): (s: Status)
    ensures s == Ahead <==> progress >= timeProgress
    ensures s == OnTrack <==> progress < timeProgress && progress >= timeProgress * 0.9
    ensures s == Behind <==> progress < timeProgress * 0.9 && progress < timeProgress
  {
    if progress >= timeProgress then Ahead
    else if progress >= timeProgress * 0.9 then OnTrack
    else Behind
  }

  /** The metrics of a goal with `current` saved towards `target` by
      `targetDay`, measured at instant `now`. */
  function CalculateGoalProgress(current: real, target: real, targetDay: int, startDay: Option<int>, now: int): (g: GoalProgress)
    ensures g.amountNeeded == target - current
    ensures target > 0.0 ==> g.progressPct == Percent(current, target)
    ensures target <= 0.0 ==> g.progressPct == 0.0
    ensures g.targetInstant == Midnight(targetDay)
    ensures g.daysRemaining * SecondsPerDay <= g.targetInstant - now < (g.daysRemaining + 1) * SecondsPerDay
    ensures g.dailyRateNeeded * (if g.daysRemaining > 1 then g.daysRemaining else 1) as real == g.amountNeeded
    ensures g.monthlyRateNeeded == g.dailyRateNeeded * 30.0
    ensures g.status == Assess(g.progressPct, g.timeProgressPct) && g.statusEmoji == StatusEmoji(g.status)
    ensures g.isAchievable <==> g.daysRemaining > 0 && g.dailyRateNeeded < MaxDailySaving
    ensures var start := StartInstant(startDay, now);
      var total := WholeDays(Midnight(targetDay), start);
      && (total > 0 ==> g.timeProgressPct == Percent(WholeDays(now, start) as real, total as real))
      && (total <= 0 ==> g.timeProgressPct == 0.0)
  {
    var start := StartInstant(startDay, now);
    var targetInstant := Midnight(targetDay);
    var totalDays := WholeDays(targetInstant, start);
    var daysElapsed := WholeDays(now, start);
    var daysRemaining := WholeDays(targetInstant, now);
    var amountNeeded := target - current;
    var progress := if target > 0.0 then Percent(current, target) else 0.0;
    var timeProgress := if totalDays > 0 then Percent(daysElapsed as real, totalDays as real) else 0.0;
    var daily := PerDay(amountNeeded, daysRemaining);
    var status := Assess(progress, timeProgress);
    GoalProgress(progress, timeProgress, amountNeeded, daysRemaining, daily, daily * 30.0,
                 status, StatusEmoji(status), targetInstant, daysRemaining > 0 && daily < MaxDailySaving)
  }

  /** Statuses ordered from worst to best. */
  function Rank(s: Status): nat {
    match s
    case Behind => 0
    case OnTrack => 1
    case Ahead => 2
  }

  /** Saving more never lowers the progress or the status of a goal. */
  lemma MoreSavedNeverWorse(less: real, more: real, target: real, targetDay: int, startDay: Option<int>, now: int)
    requires less <= more && target > 0.0
    ensures var a := CalculateGoalProgress(less, target, targetDay, startDay, now);
      var b := CalculateGoalProgress(more, target, targetDay, startDay, now);
      a.progressPct <= b.progressPct && Rank(a.status) <= Rank(b.status) && b.amountNeeded <= a.amountNeeded
  {
    var a := CalculateGoalProgress(less, target, targetDay, startDay, now);
    var b := CalculateGoalProgress(more, target, targetDay, startDay, now);
    assert a.timeProgressPct == b.timeProgressPct;
    PercentMonotone(less, more, target);
  }

  /** Without a start date the goal's span is the days left plus one year,
      of which one year has elapsed. */
  lemma DefaultStartSpansAYear(current: real, target: real, targetDay: int, now: int)
    ensures var g := CalculateGoalProgress(current, target, targetDay, None, now);
      var start := StartInstant(None, now);
      && WholeDays(now, start) == DefaultSpanDays
      && WholeDays(Midnight(targetDay), start) == g.daysRemaining + DefaultSpanDays
  {
  }

  lemma WholeDaysMonotone(a: int, b: int, earlier: int)
    requires a <= b
    ensures WholeDays(a, earlier) <= WholeDays(b, earlier)
  {
  }

  /** A goal already reached before its date is ahead of schedule, needs
      nothing more, and counts as achievable exactly when days remain. */
  lemma ReachedGoalIsAhead(current: real, target: real, targetDay: int, startDay: Option<int>, now: int)
    requires target > 0.0 && current >= target
    requires now <= Midnight(targetDay)
    ensures var g := CalculateGoalProgress(current, target, targetDay, startDay, now);
      && g.progressPct >= 100.0
      && g.status == Ahead
      && g.amountNeeded <= 0.0
      && (g.isAchievable <==> g.daysRemaining > 0)
  {
    var g := CalculateGoalProgress(current, target, targetDay, startDay, now);
    var start := StartInstant(startDay, now);
    var total := WholeDays(Midnight(targetDay), start);
    var elapsed := WholeDays(now, start);
    WholeDaysMonotone(now, Midnight(targetDay), start);
    PercentOfWhole(target);
    PercentMonotone(target, current, target);
    if total > 0 {
      PercentOfWhole(total as real);
      PercentMonotone(elapsed as real, total as real, total as real);
    }
    assert g.daysRemaining >= 0;
    assert g.dailyRateNeeded <= 0.0;
  }

  /** 15,000 saved of 100,000, one year before the date, with the default
      start: 15% saved against 50% of the time gone, so the goal is behind,
      needing 85,000 over 365 days. */
  lemma BehindExample(day: int)
    ensures var g := CalculateGoalProgress(15000.0, 100000.0, day + 365, None, Midnight(day));
      && g.progressPct == 15.0
      && g.timeProgressPct == 50.0
      && g.status == Behind
      && g.daysRemaining == 365
      && g.dailyRateNeeded * 365.0 == 85000.0
      && g.isAchievable
  {
    var now := Midnight(day);
    var g := CalculateGoalProgress(15000.0, 100000.0, day + 365, None, now);
    assert Midnight(day + 365) - now == 365 * SecondsPerDay;
    assert g.daysRemaining == 365;
    DefaultStartSpansAYear(15000.0, 100000.0, day + 365, now);
    assert g.timeProgressPct == Percent(365.0, 730.0);
  }
}
