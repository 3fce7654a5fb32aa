/** Decision rules behind the dashboard, credit-card, goals and analytics
    pages: due-date alerts, wealth milestones, the diversification score
    and the automatic update of portfolio goals. Days are day numbers. */
module Dashboard {
  import opened Basics
  import opened Text
  import opened Records
  import opened MarketData

  /** The severity a message is shown with. */
  datatype Level = Error | Warning | Info

  /** A credit card as far as its due date matters. */
  datatype Card = Card(name: string, dueDay: Option<int>)

  /** Whole days from today's date to the due date. */
  function DaysUntilDue(dueDay: int, now: int): int {
    dueDay - DayOf(now)
  }

  /** One dashboard alert. */
  datatype Alert = Alert(card: string, daysUntilDue: int, level: Level)

  /** The dashboard only alerts for a due date at most seven days away: as
      an error within three days, as a warning otherwise. Overdue cards
      (negative days) alert as errors. */
  function DashboardAlert(days: int): (r: Option<Level>)
    ensures r.Some? <==> days <= 7
    ensures r == Some(Error) <==> days <= 3
  {
    if days <= 7 then Some(if days <= 3 then Error else Warning) else None
  }

  /** The level the card page shows next to every due date. */
  function CardDueLevel(days: int): (r: Level)
    ensures r == Error <==> days <= 3
    ensures r == Warning <==> 3 < days <= 7
    ensures r == Info <==> days > 7
  {
    if days <= 3 then Error else if days <= 7 then Warning else Info
  }

  /** The two pages agree: the dashboard alerts exactly for the cards the
      card page does not show as merely informational, with the same
      level. */
  lemma AlertLevelsAgree(days: int)
    ensures DashboardAlert(days).Some? <==> CardDueLevel(days) != Info
    ensures DashboardAlert(days).Some? ==> DashboardAlert(days).value == CardDueLevel(days)
  {
  }

  /** The alert of one card: a card with a due date at most seven days
      away alerts under its own name, with its days and its level. */
  function CardAlert(c: Card, now: int): (a: Option<Alert>)
    ensures a.Some? <==> c.dueDay.Some? && DaysUntilDue(c.dueDay.value, now) <= 7
    ensures a.Some? ==> a.value == Alert(c.name, DaysUntilDue(c.dueDay.value, now), CardDueLevel(DaysUntilDue(c.dueDay.value, now)))
  {
    if c.dueDay.Some? && DaysUntilDue(c.dueDay.value, now) <= 7 then
      var days := DaysUntilDue(c.dueDay.value, now);
      AlertLevelsAgree(days);
      Some(Alert(c.name, days, DashboardAlert(days).value))
    else None
  }

  /** The alert of one card as a function value. */
  function Alerter(now: int): Card -> Option<Alert> {
    c => CardAlert(c, now)
  }

  /** The alerts of a list of cards, in card order; cards without a due
      date are passed over. */
  function CardAlerts(cards: seq<Card>, now: int): (r: seq<Alert>)
    ensures |r| <= |cards|
    ensures forall a :: a in r ==> a.daysUntilDue <= 7 && a.level == CardDueLevel(a.daysUntilDue)
    ensures r == [] <==> forall i :: 0 <= i < |cards| && cards[i].dueDay.Some? ==> DaysUntilDue(cards[i].dueDay.value, now) > 7
    ensures r == Somes(Map(Alerter(now), cards))
  {
    if cards == [] then []
    else
      var rest := CardAlerts(cards[1..], now);
      assert forall i :: 1 <= i < |cards| ==> cards[i] == cards[1..][i - 1];
      var c := cards[0];
      MapFront(Alerter(now), cards);
      SomesAppend([CardAlert(c, now)], Map(Alerter(now), cards[1..]));
      if c.dueDay.Some? && DaysUntilDue(c.dueDay.value, now) <= 7 then
        var days := DaysUntilDue(c.dueDay.value, now);
        AlertLevelsAgree(days);
        [Alert(c.name, days, DashboardAlert(days).value)] + rest
      else rest
  }

  /** Every card due within seven days contributes its own alert, and
      every alert shown is some card's. */
  lemma AlertsAreTheCards(cards: seq<Card>, now: int)
    ensures forall i :: 0 <= i < |cards| && CardAlert(cards[i], now).Some? ==> CardAlert(cards[i], now).value in CardAlerts(cards, now)
    ensures forall a :: a in CardAlerts(cards, now) ==> exists i :: 0 <= i < |cards| && CardAlert(cards[i], now) == Some(a)
  {
    SomesOfMap(Alerter(now), cards);
  }

  /** Cards are alerted independently: the alerts of two lists joined are
      the alerts of each, joined. */
  lemma CardAlertsAppend(a: seq<Card>, b: seq<Card>, now: int)
    ensures CardAlerts(a + b, now) == CardAlerts(a, now) + CardAlerts(b, now)
  {
    MapAppend(Alerter(now), a, b);
    SomesAppend(Map(Alerter(now), a), Map(Alerter(now), b));
  }

  /** What the alert panel of the dashboard shows. */
  datatype AlertPanel = NoCards | AllCurrent | Alerts(alerts: seq<Alert>)

  function AlertPanelOf(cards: seq<Card>, now: int): (r: AlertPanel)
    ensures r == NoCards <==> cards == []
    ensures r == AllCurrent <==> cards != [] && CardAlerts(cards, now) == []
    ensures r.Alerts? ==> r.alerts == CardAlerts(cards, now) && r.alerts != []
  {
    if cards == [] then NoCards
    else
      var alerts := CardAlerts(cards, now);
      if alerts == [] then AllCurrent else Alerts(alerts)
  }

  /** The wealth milestones, in increasing order. */
  const Milestones: seq<int> := [10000, 25000, 50000, 100000, 250000, 500000, 1000000]

  /** One line of the milestone list. */
  datatype MilestoneLine = Reached(milestone: int) | ToGo(milestone: int, remaining: real)

  /** The milestone list for a net worth: reached milestones are listed
      until the first one not reached, which is shown with the amount still
      to go, and the list stops there. */
  function MilestoneLines(netWorth: real, ms: seq<int>): (r: seq<MilestoneLine>)
    ensures |r| <= |ms|
    ensures forall i :: 0 <= i < |r| ==> r[i].milestone == ms[i]
    ensures forall i :: 0 <= i < |r| ==> (r[i].Reached? <==> netWorth >= ms[i] as real)
    ensures forall i :: 0 <= i < |r| && r[i].ToGo? ==> i == |r| - 1 && r[i].remaining == ms[i] as real - netWorth
    ensures |r| < |ms| ==> r != [] && r[|r| - 1].ToGo?
  {
    if ms == [] then []
    else if netWorth >= ms[0] as real then
      var rest := MilestoneLines(netWorth, ms[1..]);
      var r := [Reached(ms[0])] + rest;
      assert forall i :: 1 <= i < |r| ==> r[i] == rest[i - 1] && ms[i] == ms[1..][i - 1];
      r
    else [ToGo(ms[0], ms[0] as real - netWorth)]
  }

  predicate Increasing(ms: seq<int>) {
    forall i, j :: 0 <= i < j < |ms| ==> ms[i] < ms[j]
  }

  /** With increasing milestones the list marks as reached exactly the
      milestones not above the net worth. */
  lemma {:induction false} ReachedExactly(netWorth: real, ms: seq<int>, i: nat)
    requires Increasing(ms) && i < |ms|
    ensures netWorth >= ms[i] as real ==> i < |MilestoneLines(netWorth, ms)| && MilestoneLines(netWorth, ms)[i].Reached?
    ensures netWorth < ms[i] as real ==> i >= |MilestoneLines(netWorth, ms)| || MilestoneLines(netWorth, ms)[i].ToGo?
  {
    if i > 0 && netWorth >= ms[0] as real {
      var tail := ms[1..];
      assert Increasing(tail);
      ReachedExactly(netWorth, tail, i - 1);
      assert tail[i - 1] == ms[i];
    }
  }

  /** The position of the next milestone for a net worth: the first one
      not reached, or `None` when every milestone is reached. */
  function NextMilestone(netWorth: real, ms: seq<int>): (r: Option<nat>)
    ensures r.None? <==> forall i :: 0 <= i < |ms| ==> netWorth >= ms[i] as real
    ensures r.Some? ==> r.value < |ms| && netWorth < ms[r.value] as real
    ensures r.Some? ==> forall i :: 0 <= i < r.value ==> netWorth >= ms[i] as real
  {
    if ms == [] then None
    else if netWorth >= ms[0] as real then
      var rest := NextMilestone(netWorth, ms[1..]);
      assert forall i :: 1 <= i < |ms| ==> ms[i] == ms[1..][i - 1];
      if rest.Some? then Some(rest.value + 1) else None
    else Some(0)
  }

  /** The milestone list ends with a "to go" line exactly when a milestone
      is left, and that line is the next milestone's. */
  lemma {:induction false} ToGoLineIsNext(netWorth: real, ms: seq<int>)
    ensures var lines := MilestoneLines(netWorth, ms);
      var next := NextMilestone(netWorth, ms);
      && (next.None? <==> |lines| == |ms| && (lines == [] || lines[|lines| - 1].Reached?))
      && (next.Some? ==> |lines| == next.value + 1 && lines[next.value] == ToGo(ms[next.value], ms[next.value] as real - netWorth))
  {
    if ms != [] && netWorth >= ms[0] as real {
      ToGoLineIsNext(netWorth, ms[1..]);
      var lines := MilestoneLines(netWorth, ms);
      var rest := MilestoneLines(netWorth, ms[1..]);
      assert lines == [Reached(ms[0])] + rest;
      assert forall i :: 1 <= i < |lines| ==> lines[i] == rest[i - 1];
      assert forall i :: 1 <= i < |ms| ==> ms[i] == ms[1..][i - 1];
    }
  }

  /** With the tracker's milestones, nothing is left once the net worth
      reaches one million. */
  lemma AllMilestonesAtAMillion(netWorth: real)
    ensures NextMilestone(netWorth, Milestones).None? <==> netWorth >= 1000000.0
  {
    assert Milestones[6] == 1000000;
    assert forall i :: 0 <= i < |Milestones| ==> Milestones[i] <= 1000000;
  }

  /** The diversification score: 20 points per holding, capped at 100. */
  function DiversificationScore(holdings: nat): (r: nat)
    ensures r <= 100
    ensures r == 100 <==> holdings >= 5
    ensures holdings < 5 ==> r == 20 * holdings
  {
    if holdings * 20 < 100 then holdings * 20 else 100
  }

  /** One more holding never lowers the score. */
  lemma DiversificationMonotone(a: nat, b: nat)
    requires a <= b
    ensures DiversificationScore(a) <= DiversificationScore(b)
  {
  }

  /** A savings goal as stored; the target date is a day number. */
  datatype Goal = Goal(name: string, target: real, current: real, targetDay: int)

  /** Goals tracked against the portfolio, recognised by name. */
  predicate IsPortfolioGoal(name: string) {
    Contains(Lower(name), "portfolio") || Contains(Lower(name), "100k")
  }

  /** The goals page sets the saved amount of every portfolio goal to the
      current portfolio value, when there are goals and holdings and the
      market-data module is available; nothing else about any goal
      changes. */
  function AutoUpdateGoals(goals: seq<Goal>, holdings: seq<Holding>, provider: Provider, now: int, apisAvailable: bool): (r: seq<Goal>)
    ensures |r| == |goals|
    ensures forall i :: 0 <= i < |goals| ==>
      r[i].name == goals[i].name && r[i].target == goals[i].target && r[i].targetDay == goals[i].targetDay
    ensures forall i :: 0 <= i < |goals| ==>
      r[i].current == (if apisAvailable && holdings != [] && IsPortfolioGoal(goals[i].name)
                       then PortfolioValue(holdings, provider, now).totalValue else goals[i].current)
  {
    if goals == [] || holdings == [] || !apisAvailable then goals
    else
      var value := PortfolioValue(holdings, provider, now).totalValue;
      seq(|goals|, i requires 0 <= i < |goals| =>
        if IsPortfolioGoal(goals[i].name) then goals[i].(current := value) else goals[i])
  }

  /** Refreshing twice with the same quotes gives the same goals. */
  lemma AutoUpdateIdempotent(goals: seq<Goal>, holdings: seq<Holding>, provider: Provider, now: int, apisAvailable: bool)
    ensures var once := AutoUpdateGoals(goals, holdings, provider, now, apisAvailable);
      AutoUpdateGoals(once, holdings, provider, now, apisAvailable) == once
  {
    var once := AutoUpdateGoals(goals, holdings, provider, now, apisAvailable);
    var twice := AutoUpdateGoals(once, holdings, provider, now, apisAvailable);
    assert forall i :: 0 <= i < |once| ==> twice[i] == once[i];
  }

  /** The sample goal "First $100K Portfolio" follows the portfolio. */
  lemma SampleGoalIsPortfolioGoal()
    ensures IsPortfolioGoal("First $100K Portfolio")
  {
    var lowered := Lower("First $100K Portfolio");
    assert lowered[7..11] == "100k";
    assert OccursAt(lowered, "100k", 7);
  }
}
