/**
 * The values the dashboard window computes before handing them to its
 * widgets and charts. Each takes the query results it works on as plain
 * input sequences.
 */
module Dashboard {
  import opened Wrappers
  import opened Text
  import opened Calendar
  import opened Queries
  import Sums

  /** One wedge of the category pie chart. */
  datatype Slice = Slice(name: string, value: real)

  function SliceValue(x: Slice): real {
    x.value
  }

  function SliceOf(c: CategoryTotal): Slice {
    Slice(c.category, c.total)
  }

  const PieCategories := 5
  const OtherLabel := "Other"

  /**
   * The pie's wedges: at most five categories as they come, otherwise the
   * first five and one "Other" wedge holding the rest.
   */
  function PieSlices(categories: seq<CategoryTotal>): (r: seq<Slice>)
    ensures |categories| <= PieCategories ==> |r| == |categories|
    ensures |categories| > PieCategories ==> |r| == PieCategories + 1
    ensures forall i :: 0 <= i < |r| && i < PieCategories && i < |categories| ==>
      r[i] == Slice(categories[i].category, categories[i].total)
    ensures |categories| > PieCategories ==>
      r[PieCategories] == Slice(OtherLabel, Sums.Sum(categories[PieCategories..], TotalOf))
  {
    if |categories| > PieCategories then
      Slices(categories[..PieCategories]) + [Slice(OtherLabel, Sums.Sum(categories[PieCategories..], TotalOf))]
    else
      Slices(categories)
  }

  function Slices(categories: seq<CategoryTotal>): (r: seq<Slice>)
    ensures |r| == |categories|
    ensures forall i :: 0 <= i < |r| ==> r[i] == SliceOf(categories[i])
  {
    seq(|categories|, i requires 0 <= i < |categories| => SliceOf(categories[i]))
  }

  /** Relabelling categories as wedges keeps their sum. */
  lemma {:induction false} SlicesSum(categories: seq<CategoryTotal>)
    ensures Sums.Sum(Slices(categories), SliceValue) == Sums.Sum(categories, TotalOf)
  {
    if |categories| > 0 {
      SlicesSum(categories[1..]);
      assert Slices(categories)[1..] == Slices(categories[1..]);
    }
  }

  /** The pie's wedges always add up to the total over all categories. */
  lemma {:induction false} PieKeepsTotal(categories: seq<CategoryTotal>)
    ensures Sums.Sum(PieSlices(categories), SliceValue) == Sums.Sum(categories, TotalOf)
  {
    if |categories| > PieCategories {
      var head := categories[..PieCategories];
      var tail := categories[PieCategories..];
      var other := Slice(OtherLabel, Sums.Sum(tail, TotalOf));
      Sums.SumAppend(Slices(head), [other], SliceValue);
      SlicesSum(head);
      Sums.SumAppend(head, tail, TotalOf);
      assert head + tail == categories;
    } else {
      SlicesSum(categories);
    }
  }

  const BarCategories := 10

  /** The bar chart's categories: the first ten, in the order given. */
  function BarSlice(categories: seq<CategoryTotal>): (r: seq<CategoryTotal>)
    ensures |r| == if |categories| < BarCategories then |categories| else BarCategories
    ensures r <= categories
  {
    if |categories| < BarCategories then categories else categories[..BarCategories]
  }

  /**
   * Fed the totals by category, which come largest first, the bars show the
   * largest categories: no category left off has a larger total than one shown.
   */
  lemma {:induction false} BarShowsLargest(s: Store.Store)
    ensures var all := TotalsByCategory(s);
      var bars := BarSlice(all);
      forall i, j :: 0 <= i < |bars| <= j < |all| ==> all[j].total <= bars[i].total
  {
  }

  /** One row of the monthly spending query: a `YYYY-MM` key and its total. */
  datatype MonthTotal = MonthTotal(month: string, total: real)

  /** The monthly trend series, oldest first: the query's rows reversed. */
  function Chronological(months: seq<MonthTotal>): (r: seq<MonthTotal>)
    ensures |r| == |months|
    ensures forall i :: 0 <= i < |r| ==> r[i] == months[|months| - 1 - i]
  {
    if |months| == 0 then [] else Chronological(months[1..]) + [months[0]]
  }

  /** Reversing twice gives back the query order. */
  lemma {:induction false} ChronologicalInvolution(months: seq<MonthTotal>)
    ensures Chronological(Chronological(months)) == months
  {
  }

  /** Months that come newest first (by key) are plotted oldest first. */
  lemma {:induction false} ChronologicalAscending(months: seq<MonthTotal>)
    requires forall i, j :: 0 <= i < j < |months| ==> Collation.Less(months[j].month, months[i].month)
    ensures var r := Chronological(months);
      forall i, j :: 0 <= i < j < |r| ==> Collation.Less(r[i].month, r[j].month)
  {
  }

  const DescriptionWidth := 30
  const Ellipsis := "..."

  /** A description as the recent-activity list shows it. */
  function Truncate(description: string): (r: string)
    ensures |description| <= DescriptionWidth ==> r == description
    ensures |description| > DescriptionWidth ==>
      |r| == DescriptionWidth + |Ellipsis| && r[..DescriptionWidth] == description[..DescriptionWidth]
      && r[DescriptionWidth..] == Ellipsis
  {
    if |description| > DescriptionWidth then description[..DescriptionWidth] + Ellipsis else description
  }

  /** Shown descriptions are never longer than 33 characters, and shortening is stable. */
  lemma {:induction false} TruncateStable(description: string)
    ensures |Truncate(description)| <= DescriptionWidth + |Ellipsis|
    ensures Truncate(Truncate(description)) == Truncate(description)
  {
    if |description| > DescriptionWidth {
      var r := Truncate(description);
      assert r[..DescriptionWidth] == description[..DescriptionWidth];
    }
  }

  /** One row of the per-category transaction count query. */
  datatype CategoryCount = CategoryCount(category: string, count: int)

  /** `dict(counts).get(c, 0)`: the count of the last pair for `c`, or 0. */
  function CountFor(counts: seq<CategoryCount>, c: string): (n: int)
    ensures (forall i :: 0 <= i < |counts| ==> counts[i].category != c) ==> n == 0
  {
    if |counts| == 0 then 0
    else if counts[|counts| - 1].category == c then counts[|counts| - 1].count
    else CountFor(counts[..|counts| - 1], c)
  }

  /** The dictionary keeps the last pair for each key. */
  lemma {:induction false} CountForLast(counts: seq<CategoryCount>, k: nat)
    requires k < |counts|
    requires forall j :: k < j < |counts| ==> counts[j].category != counts[k].category
    ensures CountFor(counts, counts[k].category) == counts[k].count
  {
    if k < |counts| - 1 {
      CountForLast(counts[..|counts| - 1], k);
    }
  }

  /** One row of the category analysis table. */
  datatype Analysis = Analysis(category: string, total: real, count: int, average: real)

  /** The average of a total over a count, 0 when there is nothing to divide by. */
  function Average(total: real, count: int): (a: real)
    ensures count > 0 ==> a * count as real == total
    ensures count <= 0 ==> a == 0.0
  {
    if count > 0 then total / count as real else 0.0
  }

  /** The category analysis table: one row per category total, in the same order. */
  function CategoryAnalysis(categories: seq<CategoryTotal>, counts: seq<CategoryCount>): (r: seq<Analysis>)
    ensures |r| == |categories|
    ensures forall i :: 0 <= i < |r| ==>
      && r[i].category == categories[i].category
      && r[i].total == categories[i].total
      && r[i].count == CountFor(counts, categories[i].category)
      && (r[i].count > 0 ==> r[i].average * r[i].count as real == r[i].total)
      && (r[i].count <= 0 ==> r[i].average == 0.0)
  {
    seq(|categories|, i requires 0 <= i < |categories| =>
      var c := categories[i];
      var n := CountFor(counts, c.category);
      Analysis(c.category, c.total, n, Average(c.total, n)))
  }

  /** A category missing from the counts is shown with count 0 and average 0. */
  lemma {:induction false} UncountedCategory(categories: seq<CategoryTotal>, counts: seq<CategoryCount>, i: nat)
    requires i < |categories|
    requires forall j :: 0 <= j < |counts| ==> counts[j].category != categories[i].category
    ensures CategoryAnalysis(categories, counts)[i].count == 0
    ensures CategoryAnalysis(categories, counts)[i].average == 0.0
  {
  }

  /** `year, month_num = map(int, key.split('-'))`, or `None` when that raises. */
  function MonthKey(key: string): (r: Option<(int, int)>)
    ensures r.Some? ==> |Split(key, '-')| == 2
  {
    var parts := Split(key, '-');
    if |parts| != 2 then None
    else
      match (ParseInt(parts[0]), ParseInt(parts[1]))
      case (Some(y), Some(m)) => Some((y, m))
      case _ => None
  }

  /**
   * A key parses to (`y`, `m`) exactly when it is two dash-free pieces
   * joined by one dash, reading as `y` and `m`.
   */
  lemma {:induction false} MonthKeyMeaning(key: string, y: int, m: int)
    ensures MonthKey(key) == Some((y, m)) <==>
      exists a: string, b: string :: '-' !in a && '-' !in b && key == a + "-" + b
        && ParseInt(a) == Some(y) && ParseInt(b) == Some(m)
  {
    if MonthKey(key) == Some((y, m)) {
      var a, b := MonthKeyPieces(key);
      assert ParseInt(a) == Some(y) && ParseInt(b) == Some(m);
    }
    if exists a: string, b: string :: '-' !in a && '-' !in b && key == a + "-" + b
        && ParseInt(a) == Some(y) && ParseInt(b) == Some(m) {
      var a: string, b: string :| '-' !in a && '-' !in b && key == a + "-" + b
        && ParseInt(a) == Some(y) && ParseInt(b) == Some(m);
      MonthKeyOfPieces(a, b);
    }
  }

  /** Two dash-free pieces that read as integers make a key that parses to them. */
  lemma {:induction false} MonthKeyOfPieces(a: string, b: string)
    requires '-' !in a && '-' !in b && ParseInt(a).Some? && ParseInt(b).Some?
    ensures MonthKey(a + "-" + b) == Some((ParseInt(a).value, ParseInt(b).value))
  {
    SplitTwo(a, b);
  }

  /** A key that parses is its two pieces joined by a dash. */
  lemma {:induction false} MonthKeyPieces(key: string) returns (a: string, b: string)
    requires MonthKey(key).Some?
    ensures '-' !in a && '-' !in b && key == a + "-" + b
    ensures ParseInt(a).Some? && ParseInt(b).Some?
    ensures MonthKey(key) == Some((ParseInt(a).value, ParseInt(b).value))
  {
    var parts := Split(key, '-');
    a, b := parts[0], parts[1];
    JoinSplit(key, '-');
    assert parts[1..] == [b];
  }

  /** Two dash-free pieces joined by a dash split back into those pieces. */
  lemma {:induction false} SplitTwo(a: string, b: string)
    requires '-' !in a && '-' !in b
    ensures Split(a + "-" + b, '-') == [a, b]
  {
    assert Join([a, b], '-') == a + "-" + b;
    SplitJoin([a, b], '-');
  }

  /** Whether `datetime(y, m, d)` can be built. */
  predicate Buildable(y: int, m: int, d: int) {
    MinYear <= y <= MaxYear && IsDate(y, m, d)
  }

  /**
   * The number of days in the month named by `key`, counted as the distance
   * between `datetime` values for the first of the month and the first of
   * the next; `None` when parsing or building a date raises.
   */
  function MonthDays(key: string): (r: Option<int>)
    ensures r.Some? <==> MonthKey(key).Some? && ValidMonth(MonthKey(key).value.0, MonthKey(key).value.1)
    ensures r.Some? ==> r.value == MonthLength(MonthKey(key).value.0, MonthKey(key).value.1)
    ensures r.Some? ==> r.value > 0
  {
    match MonthKey(key)
    case None => None
    case Some((y, m)) => DaysOf(y, m)
  }

  /** The day count for a parsed year and month, `None` when building either `datetime` raises. */
  function DaysOf(y: int, m: int): (r: Option<int>)
    ensures r.Some? <==> ValidMonth(y, m)
    ensures r.Some? ==> r.value == MonthLength(y, m) && r.value > 0
  {
    var next := if m == 12 then (y + 1, 1) else (y, m + 1);
    if !Buildable(next.0, next.1, 1) || !Buildable(y, m, 1) then
      NoDaysOutsideRange(y, m);
      None
    else
      MonthDistance(y, m);
      Some(Ordinal(next.0, next.1, 1) - Ordinal(y, m, 1))
  }

  /**
   * A month key gives a day count exactly when it reads as a year and a
   * month 1..12 such that it and the month after lie in years 1..9999; the
   * count is then between 28 and 31, and 29 for February exactly in leap
   * years.
   */
  lemma {:induction false} MonthDaysMeaning(key: string)
    ensures MonthDays(key).Some? <==>
      MonthKey(key).Some? && ValidMonth(MonthKey(key).value.0, MonthKey(key).value.1)
    ensures MonthDays(key).Some? ==>
      var (y, m) := MonthKey(key).value;
      && 28 <= MonthDays(key).value <= 31
      && (m == 2 ==> (MonthDays(key).value == 29 <==> IsLeap(y)))
  {
    if MonthKey(key).Some? {
      var (y, m) := MonthKey(key).value;
      if ValidMonth(y, m) {
        MonthLengthRange(y, m);
      }
    }
  }

  /** A month `datetime` can build together with the first of the month after it. */
  predicate ValidMonth(y: int, m: int) {
    1 <= m <= 12 && MinYear <= y <= MaxYear && (y, m) != (MaxYear, 12)
  }

  lemma {:induction false} NoDaysOutsideRange(y: int, m: int)
    requires !ValidMonth(y, m)
    ensures var next := if m == 12 then (y + 1, 1) else (y, m + 1);
      !Buildable(next.0, next.1, 1) || !Buildable(y, m, 1)
  {
  }

  /** The key `YYYY-MM` that a month query writes reads back as that year and month. */
  lemma {:induction false} MonthKeyRoundTrip(y: nat, m: nat)
    requires y < 10000 && m < 100
    ensures MonthKey(Padded(y, 4) + "-" + Padded(m, 2)) == Some((y, m))
  {
    var a, b := Padded(y, 4), Padded(m, 2);
    assert '-' !in a && '-' !in b by {
      assert forall i :: 0 <= i < |a| ==> IsDigit(a[i]);
      assert forall i :: 0 <= i < |b| ==> IsDigit(b[i]);
    }
    assert Join([a, b], '-') == a + "-" + b;
    SplitJoin([a, b], '-');
    ParsePadded(y, 4);
    ParsePadded(m, 2);
  }

  /** One line of the monthly trend text: the daily average, or N/A. */
  datatype MonthLine = MonthLine(month: string, total: real, dailyAverage: Option<real>)

  function MonthlyLine(row: MonthTotal): (r: MonthLine)
    ensures r.month == row.month && r.total == row.total
    ensures r.dailyAverage.Some? <==> MonthDays(row.month).Some?
    ensures r.dailyAverage.Some? ==> SpreadOver(r.dailyAverage.value, MonthDays(row.month).value, row.total)
  {
    LineFor(row, MonthDays(row.month))
  }

  /** `average` is `total` spread evenly over `days` days. */
  predicate SpreadOver(average: real, days: int, total: real) {
    average * days as real == total
  }

  /** The line for a month whose day count, if any, is positive. */
  function LineFor(row: MonthTotal, days: Option<int>): (r: MonthLine)
    requires days.Some? ==> days.value > 0
    ensures r.month == row.month && r.total == row.total
    ensures r.dailyAverage.Some? <==> days.Some?
    ensures r.dailyAverage.Some? ==> SpreadOver(r.dailyAverage.value, days.value, row.total)
  {
    match days
    case None => MonthLine(row.month, row.total, None)
    case Some(n) => MonthLine(row.month, row.total, Some(Average(row.total, n)))
  }

  const ReportMonths := 12

  /** The monthly trend text: nothing to show, or a line for each of the first twelve months. */
  datatype MonthlyReport = NoMonthlyData | Lines(lines: seq<MonthLine>)

  function MonthlyTrends(months: seq<MonthTotal>): (r: MonthlyReport)
    ensures r.NoMonthlyData? <==> |months| == 0
    ensures r.Lines? ==> |r.lines| == if |months| < ReportMonths then |months| else ReportMonths
    ensures r.Lines? ==> forall i :: 0 <= i < |r.lines| ==> r.lines[i] == MonthlyLine(months[i])
  {
    if |months| == 0 then NoMonthlyData
    else
      var shown := if |months| < ReportMonths then months else months[..ReportMonths];
      Lines(seq(|shown|, i requires 0 <= i < |shown| => MonthlyLine(shown[i])))
  }

  /** A well-formed key for a real month always gets its daily average. */
  lemma {:induction false} WellFormedMonthHasAverage(y: nat, m: nat, total: real)
    requires MinYear <= y <= MaxYear && 1 <= m <= 12 && (y, m) != (MaxYear, 12)
    ensures var line := MonthlyLine(MonthTotal(Padded(y, 4) + "-" + Padded(m, 2), total));
      line.dailyAverage == Some(total / MonthLength(y, m) as real)
  {
    var key := Padded(y, 4) + "-" + Padded(m, 2);
    MonthKeyRoundTrip(y, m);
    MonthDaysMeaning(key);
  }

  /** December 9999 has no following month `datetime` can build, so it shows N/A. */
  lemma {:induction false} LastMonthIsNotAvailable(total: real)
    ensures MonthlyLine(MonthTotal("9999-12", total)).dailyAverage.None?
  {
    assert "9999-12" == Padded(9999, 4) + "-" + Padded(12, 2);
    MonthKeyRoundTrip(9999, 12);
  }

  /** The quick-insight messages, in the order they are listed. */
  datatype Insight =
    | TotalSpending(total: real, count: int)
    | HighAverage
    | DominantCategory(category: string, percent: real)
    | CategorySpread(categories: nat)
    | Increased(percent: real)
    | Decreased(percent: real)
    | NoExpenses

  const HighAverageThreshold := 100.0
  const DominantPercent := 40.0

  /**
   * The month-over-month change in percent, available when there are at
   * least two months and the earlier one has a positive total.
   */
  function MonthChange(months: seq<MonthTotal>): (r: Option<real>)
    ensures r.Some? <==> |months| >= 2 && months[1].total > 0.0
    ensures r.Some? ==> (r.value > 0.0 <==> months[0].total > months[1].total)
    ensures r.Some? ==> (r.value == 0.0 <==> months[0].total == months[1].total)
  {
    if |months| >= 2 && months[1].total > 0.0 then
      var current, previous := months[0].total, months[1].total;
      Some((current - previous) / previous * 100.0)
    else None
  }

  function Abs(x: real): (r: real)
    ensures r >= 0.0 && (r == x || r == -x)
  {
    if x < 0.0 then -x else x
  }

  /**
   * The place of each spending message in the list: the total, the
   * high-average warning, the dominant category, the category count.
   */
  function Rank(m: Insight): nat {
    match m
    case TotalSpending(_, _) => 0
    case HighAverage => 1
    case DominantCategory(_, _) => 2
    case CategorySpread(_) => 3
    case _ => 4
  }

  /** The spending part of the insights, shown when the total is positive. */
  function SpendingInsights(total: real, count: int, average: real, categories: seq<CategoryTotal>): (r: seq<Insight>)
    ensures total <= 0.0 <==> r == []
    ensures forall i :: 0 <= i < |r| ==> !r[i].NoExpenses? && Rank(r[i]) < 4
    ensures forall i, j :: 0 <= i < j < |r| ==> Rank(r[i]) < Rank(r[j])
    ensures total > 0.0 ==> r[0] == TotalSpending(total, count)
    ensures HighAverage in r <==> total > 0.0 && average > HighAverageThreshold
    ensures CategorySpread(|categories|) in r <==> total > 0.0 && |categories| > 0
    ensures forall i :: 0 <= i < |r| && r[i].CategorySpread? ==> r[i].categories == |categories|
    ensures forall i :: 0 <= i < |r| && r[i].DominantCategory? ==>
      |categories| > 0 && r[i] == DominantCategory(categories[0].category, categories[0].total / total * 100.0)
    ensures total > 0.0 && |categories| > 0 ==>
      var percent := categories[0].total / total * 100.0;
      DominantCategory(categories[0].category, percent) in r <==> percent > DominantPercent
  {
    if total <= 0.0 then []
    else
      [TotalSpending(total, count)]
      + (if average > HighAverageThreshold then [HighAverage] else [])
      + CategoryInsights(total, categories)
  }

  /** The messages about categories: the dominant one, if any, then the count. */
  function CategoryInsights(total: real, categories: seq<CategoryTotal>): (r: seq<Insight>)
    requires total > 0.0
    ensures forall i :: 0 <= i < |r| ==> 2 <= Rank(r[i]) < 4
    ensures forall i, j :: 0 <= i < j < |r| ==> Rank(r[i]) < Rank(r[j])
    ensures CategorySpread(|categories|) in r <==> |categories| > 0
    ensures forall i :: 0 <= i < |r| && r[i].CategorySpread? ==> r[i].categories == |categories|
    ensures forall i :: 0 <= i < |r| && r[i].DominantCategory? ==>
      |categories| > 0 && r[i] == DominantCategory(categories[0].category, categories[0].total / total * 100.0)
    ensures |categories| > 0 ==>
      var percent := categories[0].total / total * 100.0;
      DominantCategory(categories[0].category, percent) in r <==> percent > DominantPercent
  {
    if |categories| == 0 then []
    else
      var percent := categories[0].total / total * 100.0;
      (if percent > DominantPercent then [DominantCategory(categories[0].category, percent)] else [])
      + [CategorySpread(|categories|)]
  }

  /** The trend part: one message when the change is available. */
  function TrendInsights(months: seq<MonthTotal>): (r: seq<Insight>)
    ensures |r| <= 1
    ensures forall i :: 0 <= i < |r| ==> !r[i].NoExpenses?
  {
    match MonthChange(months)
    case None => []
    case Some(change) => if change > 0.0 then [Increased(change)] else [Decreased(Abs(change))]
  }

  /** All quick insights; a placeholder when there are none. */
  function Insights(total: real, count: int, average: real, categories: seq<CategoryTotal>, months: seq<MonthTotal>): (r: seq<Insight>)
    ensures |r| >= 1
    ensures r == [NoExpenses] <==> total <= 0.0 && MonthChange(months).None?
    ensures var found := SpendingInsights(total, count, average, categories) + TrendInsights(months);
      found != [] ==> r == found
  {
    var found := SpendingInsights(total, count, average, categories) + TrendInsights(months);
    assert found != [] ==> !found[0].NoExpenses?;
    if found == [] then [NoExpenses] else found
  }

  /**
   * The trend message is "increased" exactly when the newer month spent
   * more than a previous month with a positive total; a drop or no change
   * reports the non-negative size of the change as "decreased".
   */
  lemma {:induction false} TrendMessage(months: seq<MonthTotal>)
    ensures |TrendInsights(months)| == 1 <==> |months| >= 2 && months[1].total > 0.0
    ensures TrendInsights(months) != [] ==>
      (TrendInsights(months)[0].Increased? <==> months[0].total > months[1].total)
    ensures TrendInsights(months) != [] && TrendInsights(months)[0].Decreased? ==>
      TrendInsights(months)[0].percent == (months[1].total - months[0].total) / months[1].total * 100.0
  {
    if |months| >= 2 && months[1].total > 0.0 {
      var current, previous := months[0].total, months[1].total;
      var change := (current - previous) / previous * 100.0;
      assert -change == (previous - current) / previous * 100.0;
    }
  }

  /**
   * With the figures of a store, a dominant-category message names the
   * category with the largest total.
   */
  lemma {:induction false} DominantIsLargest(s: Store.Store)
    ensures var st := SummaryStats(s);
      var cats := TotalsByCategory(s);
      forall k :: 0 <= k < |SpendingInsights(st.total, st.count, st.average, cats)| ==>
        var msg := SpendingInsights(st.total, st.count, st.average, cats)[k];
        msg.DominantCategory? ==>
          && msg.category == cats[0].category
          && (forall j :: 0 <= j < |cats| ==> cats[j].total <= cats[0].total)
          && DominantPercent < msg.percent
  {
    var st := SummaryStats(s);
    var cats := TotalsByCategory(s);
    DominantMessage(st.total, st.count, st.average, cats);
  }

  /** When no amount is negative, the share a dominant-category message reports is at most 100 percent. */
  lemma {:induction false} DominantShareAtMostAll(s: Store.Store)
    requires forall i :: 0 <= i < |s.rows| ==> s.rows[i].amount >= 0.0
    ensures var st := SummaryStats(s);
      var cats := TotalsByCategory(s);
      forall k :: 0 <= k < |SpendingInsights(st.total, st.count, st.average, cats)| ==>
        var msg := SpendingInsights(st.total, st.count, st.average, cats)[k];
        msg.DominantCategory? ==> msg.percent <= 100.0
  {
    var st := SummaryStats(s);
    var cats := TotalsByCategory(s);
    DominantMessage(st.total, st.count, st.average, cats);
    if st.total > 0.0 && |cats| > 0 {
      CategoryAtMostTotal(s.rows, cats[0].category);
      assert cats[0].total == CategoryTotalIn(s.rows, cats[0].category);
      RatioAtMostOne(cats[0].total, st.total);
    }
  }

  /**
   * A negative amount, which the form accepts, lets the share exceed 100
   * percent: 100 spent on food and a refund of -50 report food as 200
   * percent of the total.
   */
  lemma {:induction false} NegativeAmountShare(s: Store.Store)
    requires s.rows == [Store.Row(1, "2024-01-01", "Food", None, 100.0, None, None, None),
                        Store.Row(2, "2024-01-02", "Refund", None, -50.0, None, None, None)]
    ensures var st := SummaryStats(s);
      DominantCategory("Food", 200.0) in SpendingInsights(st.total, st.count, st.average, TotalsByCategory(s))
  {
    TwoRowFigures(s.rows);
    var cats := TotalsByCategory(s);
    FoodIsFirst(s.rows, cats);
    var st := SummaryStats(s);
    FoodShare(st.count, st.average, cats);
  }

  lemma {:induction false} TwoRowFigures(rows: seq<Store.Row>)
    requires rows == [Store.Row(1, "2024-01-01", "Food", None, 100.0, None, None, None),
                      Store.Row(2, "2024-01-02", "Refund", None, -50.0, None, None, None)]
    ensures Total(rows) == 50.0
    ensures CategoryTotalIn(rows, "Food") == 100.0 && CategoryTotalIn(rows, "Refund") == -50.0
    ensures Categories(rows) == {"Food", "Refund"}
  {
    var refund := rows[1];
    assert rows[1..] == [refund] && [refund][1..] == [];
    assert Total(rows) == 100.0 + Sums.Sum([refund], Amount);
    assert CategoryTotalIn(rows, "Food") == 100.0 + CategoryTotalIn([refund], "Food");
    assert CategoryTotalIn(rows, "Refund") == 0.0 + CategoryTotalIn([refund], "Refund");
    assert Sums.Sum([refund], Amount) == -50.0 + Sums.Sum([], Amount);
    assert CategoryTotalIn([refund], "Refund") == -50.0 + CategoryTotalIn([], "Refund");
    assert rows[0].category == "Food" && rows[1].category == "Refund";
  }

  lemma {:induction false} FoodIsFirst(rows: seq<Store.Row>, cats: seq<CategoryTotal>)
    requires CategoryTotalIn(rows, "Food") == 100.0 && CategoryTotalIn(rows, "Refund") == -50.0
    requires CategoriesOf(cats) == {"Food", "Refund"}
    requires forall i :: 0 <= i < |cats| ==> cats[i].total == CategoryTotalIn(rows, cats[i].category)
    requires forall i, j :: 0 <= i < j < |cats| ==> cats[i].total >= cats[j].total
    ensures |cats| > 0 && cats[0].category == "Food" && cats[0].total == 100.0
  {
    assert "Food" in CategoriesOf(cats);
    var i :| 0 <= i < |cats| && cats[i].category == "Food";
    assert cats[0].total >= cats[i].total;
    assert cats[0].category in CategoriesOf(cats);
  }

  lemma {:induction false} FoodShare(count: int, average: real, cats: seq<CategoryTotal>)
    requires |cats| > 0 && cats[0].category == "Food" && cats[0].total == 100.0
    ensures DominantCategory("Food", 200.0) in SpendingInsights(50.0, count, average, cats)
  {
    assert cats[0].total / 50.0 * 100.0 == 200.0;
  }

  /** A dominant-category message carries the first category and its share of a positive total. */
  lemma {:induction false} DominantMessage(total: real, count: int, average: real, categories: seq<CategoryTotal>)
    ensures var r := SpendingInsights(total, count, average, categories);
      forall k :: 0 <= k < |r| && r[k].DominantCategory? ==>
        && total > 0.0 && |categories| > 0
        && r[k].category == categories[0].category
        && r[k].percent == categories[0].total / total * 100.0
        && r[k].percent > DominantPercent
  {
  }

  lemma {:induction false} RatioAtMostOne(part: real, whole: real)
    requires 0.0 < whole && part <= whole
    ensures part / whole * 100.0 <= 100.0
  {
    var q := part / whole;
    assert q * whole == part;
  }

  /** With no negative amounts, one category's total is at most the overall total. */
  lemma {:induction false} CategoryAtMostTotal(rows: seq<Store.Row>, c: string)
    requires forall i :: 0 <= i < |rows| ==> rows[i].amount >= 0.0
    ensures 0.0 <= CategoryTotalIn(rows, c) <= Total(rows)
  {
    if |rows| > 0 {
      CategoryAtMostTotal(rows[1..], c);
    }
  }

  /** The top-category card: the first category's name, or the label it already had. */
  function TopCategoryLabel(categories: seq<CategoryTotal>, shown: string): (r: string)
    ensures |categories| == 0 ==> r == shown
    ensures |categories| > 0 ==> r == categories[0].category
  {
    if |categories| == 0 then shown else categories[0].category
  }

  /** For the totals by category the card names a category with the largest total. */
  lemma {:induction false} TopCategoryIsLargest(s: Store.Store)
    requires |s.rows| > 0
    ensures var cats := TotalsByCategory(s);
      |cats| > 0 && TopCategoryLabel(cats, "N/A") == cats[0].category
      && forall j :: 0 <= j < |cats| ==> cats[j].total <= cats[0].total
  {
    var cats := TotalsByCategory(s);
    assert s.rows[0].category in Categories(s.rows);
    assert s.rows[0].category in CategoriesOf(cats);
  }
}
