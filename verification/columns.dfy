/** Header keyword detection: a header is taken for a field when its
    lower-cased name contains one of the field's keywords, lower-cased. */
module Columns {
  import opened Basics
  import opened Text

  /** `any(k.lower() in header.lower() for k in keywords)`. */
  predicate HeaderMatches(header: string, keywords: seq<string>) {
    exists k :: 0 <= k < |keywords| && Contains(Lower(header), Lower(keywords[k]))
  }

  /** `auto_detect_column`: the 1-based position of the first header, in
      header order, that matches a keyword, or 0 when none does (position 0
      is the empty choice of the column picker). */
  method AutoDetectColumn(columns: seq<string>, keywords: seq<string>) returns (r: nat)
    ensures r <= |columns|
    ensures r == 0 <==> forall j :: 0 <= j < |columns| ==> !HeaderMatches(columns[j], keywords)
    ensures r > 0 ==> HeaderMatches(columns[r - 1], keywords)
    ensures forall j :: 0 <= j < r - 1 ==> !HeaderMatches(columns[j], keywords)
    ensures r == (if FirstMatch(columns, keywords).Some? then FirstMatch(columns, keywords).value + 1 else 0)
  {
    var i := 0;
    while i < |columns|
      invariant 0 <= i <= |columns|
      invariant forall j :: 0 <= j < i ==> !HeaderMatches(columns[j], keywords)
    {
      var header := Lower(columns[i]);
      var k := 0;
      while k < |keywords|
        invariant 0 <= k <= |keywords|
        invariant forall m :: 0 <= m < k ==> !Contains(header, Lower(keywords[m]))
      {
        if Contains(header, Lower(keywords[k])) {
          return i + 1;
        }
        k := k + 1;
      }
      i := i + 1;
    }
    return 0;
  }

  /** The first header at or after position `from` that matches. */
  function FirstMatchFrom(columns: seq<string>, keywords: seq<string>, from: nat): (r: Option<nat>)
    requires from <= |columns|
    ensures r.Some? ==> from <= r.value < |columns| && HeaderMatches(columns[r.value], keywords)
    ensures r.Some? ==> forall j :: from <= j < r.value ==> !HeaderMatches(columns[j], keywords)
    ensures r.None? ==> forall j :: from <= j < |columns| ==> !HeaderMatches(columns[j], keywords)
    decreases |columns| - from
  {
    if from == |columns| then None
    else if HeaderMatches(columns[from], keywords) then Some(from)
    else FirstMatchFrom(columns, keywords, from + 1)
  }

  /** The position of the first header that matches, if any. */
  function FirstMatch(columns: seq<string>, keywords: seq<string>): Option<nat> {
    FirstMatchFrom(columns, keywords, 0)
  }

  /** The canonical fields the brokerage importers look for. */
  datatype Target = Symbol | Shares | CostBasis | MarketValue | Price

  const AllTargets: set<Target> := {Symbol, Shares, CostBasis, MarketValue, Price}

  lemma TargetsComplete()
    ensures forall t: Target :: t in AllTargets
  {
    forall t: Target ensures t in AllTargets {
      match t
      case Symbol =>
      case Shares =>
      case CostBasis =>
      case MarketValue =>
      case Price =>
    }
  }

  /** Whose keyword table is used: the in-app brokerage import or the
      stand-alone cleaner script. The two differ only in `Stock` (symbol)
      and `Qty` (shares), which the cleaner lacks. */
  datatype Profile = App | Cleaner

  function Keywords(p: Profile, t: Target): seq<string> {
    match t
    case Symbol =>
      if p == App then ["symbol", "Symbol", "Ticker", "SYMBOL", "Stock"]
      else ["symbol", "Symbol", "Ticker", "SYMBOL"]
    case Shares =>
      if p == App then ["shares", "Shares", "Quantity", "Units", "SHARES", "Qty"]
      else ["shares", "Shares", "Quantity", "Units", "SHARES"]
    case CostBasis => ["cost_basis", "Cost_Basis", "Total_Cost", "Avg_Cost", "Average_Cost"]
    case MarketValue => ["market_value", "Market_Value", "Current_Value", "Value"]
    case Price => ["price", "Price", "Current_Price", "Last_Price"]
  }

  /** The resolved column of each target; undetected targets are absent.
      Each target gets the first header, in file order, matching one of its
      keywords, and nothing stops two targets from sharing a header. */
  function DetectColumns(columns: seq<string>, p: Profile): (r: map<Target, nat>)
    ensures forall t :: t in r <==> exists j :: 0 <= j < |columns| && HeaderMatches(columns[j], Keywords(p, t))
    ensures forall t :: t in r ==> r[t] < |columns| && HeaderMatches(columns[r[t]], Keywords(p, t))
    ensures forall t, j :: t in r && 0 <= j < r[t] ==> !HeaderMatches(columns[j], Keywords(p, t))
  {
    var r := map t | t in AllTargets && FirstMatch(columns, Keywords(p, t)).Some? :: FirstMatch(columns, Keywords(p, t)).value;
    TargetsComplete();
    r
  }
}
