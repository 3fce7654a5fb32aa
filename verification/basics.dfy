/** Shared vocabulary of the model: an optional value (pandas null, a
    missing column, a failed lookup) and the clock conventions used by the
    goal and alert rules. */
module Basics {

  /** `None` stands for an absent value: a null cell, an undetected column,
      a parse that raised, a quote lookup that raised. */
  datatype Option<+T> = None | Some(value: T) {
    function GetOr(default: T): T {
      match this
      case Some(v) => v
      case None => default
    }
  }

  /** The values of the `Some` entries, in order: how a batch keeps the rows
      that produced a record and drops the skipped ones. */
  function Somes<T>(xs: seq<Option<T>>): (r: seq<T>)
    ensures |r| <= |xs|
    ensures forall y :: y in r ==> Some(y) in xs
    ensures forall i :: 0 <= i < |xs| && xs[i].Some? ==> xs[i].value in r
    ensures r == [] <==> forall i :: 0 <= i < |xs| ==> xs[i].None?
  {
    if xs == [] then []
    else
      var rest := Somes(xs[1..]);
      assert forall i :: 1 <= i < |xs| ==> xs[i] == xs[1..][i - 1];
      match xs[0]
      case Some(y) => [y] + rest
      case None => rest
  }

  /** Skipping is local to each entry: the kept values of two batches
      joined are the kept values of each, joined. */
  lemma {:induction false} SomesAppend<T>(a: seq<Option<T>>, b: seq<Option<T>>)
    ensures Somes(a + b) == Somes(a) + Somes(b)
  {
    if a == [] {
      assert a + b == b;
    } else {
      assert (a + b)[1..] == a[1..] + b;
      SomesAppend(a[1..], b);
    }
  }

  /** A property every kept value has holds of every value `Somes` keeps. */
  lemma SomesKeep<T>(xs: seq<Option<T>>, p: T -> bool)
    requires forall i :: 0 <= i < |xs| && xs[i].Some? ==> p(xs[i].value)
    ensures forall y :: y in Somes(xs) ==> p(y)
  {
    forall y | y in Somes(xs)
      ensures p(y)
    {
      var i :| 0 <= i < |xs| && xs[i] == Some(y);
    }
  }

  /** `f` applied to every entry, in order. */
  function Map<A, B>(f: A -> B, xs: seq<A>): (r: seq<B>)
    ensures |r| == |xs|
    ensures forall i :: 0 <= i < |xs| ==> r[i] == f(xs[i])
  {
    seq(|xs|, i requires 0 <= i < |xs| => f(xs[i]))
  }

  /** The values kept from a per-entry computation are exactly the results
      of the entries that produced one. */
  lemma SomesOfMap<A, B>(f: A -> Option<B>, xs: seq<A>)
    ensures forall i :: 0 <= i < |xs| && f(xs[i]).Some? ==> f(xs[i]).value in Somes(Map(f, xs))
    ensures forall y :: y in Somes(Map(f, xs)) ==> exists i :: 0 <= i < |xs| && f(xs[i]) == Some(y)
  {
    var os := Map(f, xs);
    forall y | y in Somes(os)
      ensures exists i :: 0 <= i < |xs| && f(xs[i]) == Some(y)
    {
      var i :| 0 <= i < |os| && os[i] == Some(y);
    }
  }

  lemma MapAppend<A, B>(f: A -> B, a: seq<A>, b: seq<A>)
    ensures Map(f, a + b) == Map(f, a) + Map(f, b)
  {
    var l, r := Map(f, a + b), Map(f, a) + Map(f, b);
    forall i | 0 <= i < |l|
      ensures l[i] == r[i]
    {
      if i < |a| {
        assert (a + b)[i] == a[i];
      } else {
        assert (a + b)[i] == b[i - |a|];
      }
    }
  }

  lemma MapFront<A, B>(f: A -> B, xs: seq<A>)
    requires xs != []
    ensures Map(f, xs) == [f(xs[0])] + Map(f, xs[1..])
  {
    var l, r := Map(f, xs), [f(xs[0])] + Map(f, xs[1..]);
    forall i | 0 <= i < |l|
      ensures l[i] == r[i]
    {
      if i > 0 {
        assert xs[1..][i - 1] == xs[i];
      }
    }
  }

  /** Instants are whole seconds; calendar dates are day numbers whose
      midnight is `day * SecondsPerDay`. */
  const SecondsPerDay: int := 86400

  /** The instant at which a calendar date begins. */
  function Midnight(day: int): int {
    day * SecondsPerDay
  }

  /** The calendar date of an instant (the `%Y-%m-%d` of `datetime.now()`). */
  function DayOf(instant: int): (d: int)
    ensures Midnight(d) <= instant < Midnight(d + 1)
  {
    instant / SecondsPerDay
  }

  /** `timedelta.days` of the difference `later - earlier`: the whole number
      of days, rounded towards minus infinity. */
  function WholeDays(later: int, earlier: int): (d: int)
    ensures d * SecondsPerDay <= later - earlier < (d + 1) * SecondsPerDay
  {
    (later - earlier) / SecondsPerDay
  }
}
