/** The watch-time optimizer (script.js): each saved title's runtime is read
    as its first run of digits, the list is walked in stored order keeping a
    running total, and a title is flagged "May Drop" once the running total
    passes the time the user has. The optimize button checks the hours typed
    in, compares the whole total with the budget and re-renders the list with
    the flags. */
module Optimizer {
  import opened Js
  import opened Ranking
  import opened Watchlist

  /** String(runtime).match(/\d+/), then parseInt of the match; 120 when the
      text has no digit at all. */
  function BudgetRuntime(runtime: string): nat {
    match MatchDigits(runtime)
    case None => 120
    case Some(ds) => DigitsValue(ds)
  }

  /** The budget reading is parseInt applied to the first digit run, and 120
      exactly when the text has no digit; it is never negative. */
  lemma {:induction false} BudgetRuntimeIsParseIntOfRun(runtime: string)
    ensures MatchDigits(runtime).None? <==> forall i :: 0 <= i < |runtime| ==> !IsDigit(runtime[i])
    ensures MatchDigits(runtime).None? ==> BudgetRuntime(runtime) == 120
    ensures MatchDigits(runtime).Some? ==> ParseInt(MatchDigits(runtime).value) == Some(BudgetRuntime(runtime))
  {
    match MatchDigits(runtime)
    case None =>
    case Some(ds) =>
      LeadingNumeralParsesToItsValue(ds, ds, []);
  }

  /** The running total after the first k titles. */
  function Cumulative(w: seq<Item>, k: nat): nat
    requires k <= |w|
  {
    if k == 0 then 0 else Cumulative(w, k - 1) + BudgetRuntime(w[k - 1].runtime)
  }

  /** The sum over the whole list, the figure the optimize button compares. */
  function Total(w: seq<Item>): nat {
    Cumulative(w, |w|)
  }

  /** The runtime read is the value of the first digit run, wherever it is. */
  lemma {:induction false} BudgetRuntimeReadsFirstRun(pre: string, ds: string, rest: string)
    requires forall i :: 0 <= i < |pre| ==> !IsDigit(pre[i])
    requires ds != [] && AllDigits(ds)
    requires rest == [] || !IsDigit(rest[0])
    ensures BudgetRuntime(pre + ds + rest) == DigitsValue(ds)
  {
    MatchDigitsFindsFirstRun(pre, ds, rest);
  }

  /** Where both readings see a numeral at the very start of the runtime text
      and that numeral is not zero, the ranking (parseInt || 120) and the
      budget (first digit run) read the same number of minutes. */
  lemma {:induction false} RuntimeReadingsAgree(ds: string, rest: string)
    requires ds != [] && AllDigits(ds) && DigitsValue(ds) != 0
    requires rest == [] || !IsDigit(rest[0])
    ensures BudgetRuntime(ds + rest) == RankingRuntime(ds + rest) == DigitsValue(ds)
  {
    RankingRuntimeOfNumeral(ds, rest);
    BudgetRuntimeOfNumeral(ds, rest);
  }

  lemma {:induction false} BudgetRuntimeOfNumeral(ds: string, rest: string)
    requires ds != [] && AllDigits(ds)
    requires rest == [] || !IsDigit(rest[0])
    ensures BudgetRuntime(ds + rest) == DigitsValue(ds)
  {
    var none: string := [];
    assert none + ds == ds;
    BudgetRuntimeReadsFirstRun(none, ds, rest);
  }

  lemma {:induction false} RankingRuntimeOfNumeral(ds: string, rest: string)
    requires ds != [] && AllDigits(ds) && DigitsValue(ds) != 0
    requires rest == [] || !IsDigit(rest[0])
    ensures RankingRuntime(ds + rest) == DigitsValue(ds)
  {
    if |ds| == 1 {
      SingleDigitValue(ds[0]);
      assert ds == [ds[0]];
    }
    LeadingNumeralParsesToItsValue(ds + rest, ds, rest);
  }

  /** The running total never decreases along the list. */
  lemma {:induction false} CumulativeIsMonotone(w: seq<Item>, i: nat, j: nat)
    requires i <= j <= |w|
    ensures Cumulative(w, i) <= Cumulative(w, j)
    decreases j
  {
    if i < j {
      CumulativeIsMonotone(w, i, j - 1);
    }
  }

  /** One rendered row of the optimizer list. */
  datatype Row = Row(item: Item, cumulative: nat, mayDrop: bool)

  /** availableMinutes !== null && totalMinutes > availableMinutes. */
  predicate OverBudget(totalMinutes: nat, availableMinutes: Option<real>) {
    availableMinutes.Some? && totalMinutes as real > availableMinutes.value
  }

  /** renderOptimizerList(movies, availableMinutes): the rows in the given
      order, each carrying the running total including it and the flag
      raised when that total exceeds the budget. Once a row is flagged every
      later row is, and without a budget no row is. */
  method RenderOptimizerList(movies: seq<Item>, availableMinutes: Option<real>) returns (rows: seq<Row>)
    ensures |rows| == |movies|
    ensures forall k {:trigger rows[k]} :: 0 <= k < |rows| ==> rows[k].item == movies[k] && rows[k].cumulative == Cumulative(movies, k + 1)
    ensures forall k {:trigger rows[k]} :: 0 <= k < |rows| ==> (rows[k].mayDrop <==> OverBudget(Cumulative(movies, k + 1), availableMinutes))
    ensures availableMinutes.None? ==> forall k :: 0 <= k < |rows| ==> !rows[k].mayDrop
    ensures forall i, j :: 0 <= i <= j < |rows| && rows[i].mayDrop ==> rows[j].mayDrop
  {
    rows := [];
    var totalMinutes := 0;
    var index := 0;
    while index < |movies|
      invariant 0 <= index <= |movies|
      invariant totalMinutes == Cumulative(movies, index)
      invariant |rows| == index
      invariant forall k {:trigger rows[k]} :: 0 <= k < index ==>
        rows[k] == Row(movies[k], Cumulative(movies, k + 1), OverBudget(Cumulative(movies, k + 1), availableMinutes))
    {
      var movie := movies[index];
      totalMinutes := totalMinutes + BudgetRuntime(movie.runtime);
      assert totalMinutes == Cumulative(movies, index + 1);
      var willDrop := OverBudget(totalMinutes, availableMinutes);
      var row := Row(movie, totalMinutes, willDrop);
      ghost var before := rows;
      rows := rows + [row];
      forall k | 0 <= k < index + 1
        ensures rows[k] == Row(movies[k], Cumulative(movies, k + 1), OverBudget(Cumulative(movies, k + 1), availableMinutes))
      {
        if k < index {
          assert rows[k] == before[k];
        }
      }
      index := index + 1;
    }
    FlagsPersist(movies, availableMinutes, rows);
  }

  /** In rows flagged by the running total, a flag once raised stays
      raised for the rest of the list. */
  lemma {:induction false} FlagsPersist(w: seq<Item>, availableMinutes: Option<real>, rows: seq<Row>)
    requires |rows| == |w|
    requires forall k {:trigger rows[k]} :: 0 <= k < |rows| ==> (rows[k].mayDrop <==> OverBudget(Cumulative(w, k + 1), availableMinutes))
    ensures forall i, j :: 0 <= i <= j < |rows| && rows[i].mayDrop ==> rows[j].mayDrop
  {
    forall i, j | 0 <= i <= j < |rows| && rows[i].mayDrop ensures rows[j].mayDrop {
      MayDropPersists(w, availableMinutes, i, j);
    }
  }

  /** Once the running total passes the budget it stays past it. */
  lemma {:induction false} MayDropPersists(w: seq<Item>, availableMinutes: Option<real>, i: nat, j: nat)
    requires i <= j < |w|
    requires OverBudget(Cumulative(w, i + 1), availableMinutes)
    ensures OverBudget(Cumulative(w, j + 1), availableMinutes)
  {
    CumulativeIsMonotone(w, i + 1, j + 1);
  }

  /** The outcome of the optimize button. */
  datatype Outcome =
    | InvalidHours
    | AllSet(total: nat, totalHours: int, totalMins: int, rows: seq<Row>)
    | Short(total: nat, totalHours: int, totalMins: int, overflow: real,
            overflowHours: int, overflowMins: real, rows: seq<Row>)

  /** The hours typed in, when they are a positive number: parseFloat gives
      NaN, zero or a negative value for everything else, and those are
      refused. */
  function ValidHours(text: string): (r: Option<real>)
    ensures r.Some? <==> ParseFloat(text).Some? && ParseFloat(text).value > 0.0
    ensures r.Some? ==> r.value == ParseFloat(text).value
  {
    match ParseFloat(text)
    case Some(h) => if h > 0.0 then Some(h) else None
    case None => None
  }

  /** overflow % 60 on a non-negative number: what is left after taking out
      whole hours. */
  function MinutesPart(x: real): (r: real)
    requires x >= 0.0
    ensures 0.0 <= r < 60.0
    ensures x == (x / 60.0).Floor as real * 60.0 + r
  {
    x - (x / 60.0).Floor as real * 60.0
  }

  /** The handler's forEach: the budget runtimes of the saved list, added up
      in stored order. */
  method SumRuntimes(watchlist: seq<Item>) returns (totalMinutes: nat)
    ensures totalMinutes == Total(watchlist)
  {
    totalMinutes := 0;
    var index := 0;
    while index < |watchlist|
      invariant 0 <= index <= |watchlist|
      invariant totalMinutes == Cumulative(watchlist, index)
    {
      totalMinutes := totalMinutes + BudgetRuntime(watchlist[index].runtime);
      index := index + 1;
    }
  }

  /** The optimize button: refuse hours that are not a positive number;
      otherwise total the saved runtimes, report "all set" when they fit the
      budget of hours * 60 minutes and the shortfall when they do not, and
      render the list against that budget. Storage is only read. */
  method Optimize(store: WatchlistStore, hoursText: string) returns (outcome: Outcome)
    ensures outcome.InvalidHours? <==> ValidHours(hoursText).None?
    ensures !outcome.InvalidHours? ==>
      var available := ValidHours(hoursText).value * 60.0;
      var w := store.Current();
      && outcome.total == Total(w)
      && outcome.totalHours * 60 + outcome.totalMins == outcome.total
      && 0 <= outcome.totalMins < 60
      && |outcome.rows| == |w|
      && (forall k :: 0 <= k < |w| ==>
            outcome.rows[k].item == w[k] &&
            (outcome.rows[k].mayDrop <==> Cumulative(w, k + 1) as real > available))
      && (outcome.AllSet? <==> Total(w) as real <= available)
    ensures outcome.Short? ==>
      var available := ValidHours(hoursText).value * 60.0;
      && outcome.overflow == outcome.total as real - available
      && outcome.overflow > 0.0
      && outcome.overflowHours as real * 60.0 <= outcome.overflow < outcome.overflowHours as real * 60.0 + 60.0
      && outcome.overflowHours as real * 60.0 + outcome.overflowMins == outcome.overflow
  {
    var hours := ValidHours(hoursText);
    if hours.None? {
      return InvalidHours;
    }
    var availableMinutes := hours.value * 60.0;
    var watchlist := store.Current();
    var totalMinutes := SumRuntimes(watchlist);
    var rows := RenderOptimizerList(watchlist, Some(availableMinutes));
    outcome := Report(totalMinutes, availableMinutes, rows);
  }

  /** The message under the button: the total in hours and minutes, and
      either "all set" when it fits the budget or the shortfall in hours and
      minutes when it does not. */
  method Report(totalMinutes: nat, availableMinutes: real, rows: seq<Row>) returns (outcome: Outcome)
    ensures !outcome.InvalidHours? && outcome.total == totalMinutes && outcome.rows == rows
    ensures outcome.totalHours * 60 + outcome.totalMins == totalMinutes && 0 <= outcome.totalMins < 60
    ensures outcome.AllSet? <==> totalMinutes as real <= availableMinutes
    ensures outcome.Short? ==>
      && outcome.overflow == totalMinutes as real - availableMinutes
      && outcome.overflow > 0.0
      && outcome.overflowHours as real * 60.0 <= outcome.overflow < outcome.overflowHours as real * 60.0 + 60.0
      && outcome.overflowHours as real * 60.0 + outcome.overflowMins == outcome.overflow
  {
    var totalHours := totalMinutes / 60;
    var totalMins := totalMinutes % 60;
    if totalMinutes as real <= availableMinutes {
      outcome := AllSet(totalMinutes, totalHours, totalMins, rows);
    } else {
      var overflow := totalMinutes as real - availableMinutes;
      var overflowHours := (overflow / 60.0).Floor;
      var overflowMins := MinutesPart(overflow);
      outcome := Short(totalMinutes, totalHours, totalMins, overflow, overflowHours, overflowMins, rows);
    }
  }

  /** A budget of 150 minutes with a two-hour title stored before a
      ninety-minute one: the first fits (120), the second is flagged (210),
      and the shortfall reported is one hour. */
  lemma {:induction false} SecondTitleOverflowsBudget(a: Item, b: Item)
    requires a.runtime == "120 min" && b.runtime == "90 min"
    ensures Cumulative([a, b], 1) == 120 && !OverBudget(120, Some(150.0))
    ensures Cumulative([a, b], 2) == 210 && OverBudget(210, Some(150.0))
    ensures Total([a, b]) as real - 150.0 == 60.0
  {
    TwoHourBudgetRuntime(a.runtime);
    NinetyMinuteBudgetRuntime(b.runtime);
    assert [a, b][0] == a && [a, b][1] == b;
  }

  lemma {:induction false} TwoHourBudgetRuntime(runtime: string)
    requires runtime == "120 min"
    ensures BudgetRuntime(runtime) == 120
  {
    NumeralOneTwenty();
    assert runtime == "120" + " min";
    BudgetRuntimeOfNumeral("120", " min");
  }

  lemma {:induction false} NinetyMinuteBudgetRuntime(runtime: string)
    requires runtime == "90 min"
    ensures BudgetRuntime(runtime) == 90
  {
    NumeralNinety();
    assert runtime == "90" + " min";
    BudgetRuntimeOfNumeral("90", " min");
  }
}
