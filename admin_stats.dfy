/**
 * The post-processing of `getDataOnTimeFrame` (src/controllers/admin.controller.ts,
 * dist/controllers/admin.controller.js): the sign-up chart built from the
 * buckets of a MongoDB `$group` over `createdAt`.
 *
 * A bucket key is the `$dayOfWeek` (1 = Sunday .. 7 = Saturday), `$month`
 * (1 .. 12) or `$year` of `createdAt`, or null when the document has no such
 * field. The user schema declares no `createdAt` and no timestamps, so in the
 * stored data every user falls in the null bucket.
 */
module AdminStats {
  import opened Common

  /** One group of the aggregation: its key and how many documents it holds. */
  datatype Bucket = Bucket(key: Option<nat>, count: nat)

  datatype Timeframe = Weekly | Monthly | Yearly

  /** What the handler answers: an error status, or one chart series with its labels. */
  datatype Response = Failed(status: int, error: string) | Chart(series: seq<nat>, categories: seq<string>)

  /** `req.query.timeframe`, defaulting to "weekly" when it is not a string (`None`). */
  function ParseTimeframe(query: Option<string>): (r: Result<Timeframe>)
    ensures query.None? ==> r == Ok(Weekly)
    ensures query.Some? ==> (r.Ok? <==> query.value in {"weekly", "monthly", "yearly"})
    ensures r.Err? ==> r.message == "Invalid timeframe"
  {
    match query
    case None => Ok(Weekly)
    case Some(t) =>
      if t == "weekly" then Ok(Weekly)
      else if t == "monthly" then Ok(Monthly)
      else if t == "yearly" then Ok(Yearly)
      else Err("Invalid timeframe")
  }

  /** `data.find(d => d._id === k)`: the first bucket with key `k`. */
  function FindBucket(data: seq<Bucket>, k: nat): (r: Option<nat>)
    ensures r.Some? ==> r.value < |data| && data[r.value].key == Some(k) &&
                        forall j :: 0 <= j < r.value ==> data[j].key != Some(k)
    ensures r.None? ==> forall j :: 0 <= j < |data| ==> data[j].key != Some(k)
  {
    if |data| == 0 then None
    else if data[0].key == Some(k) then Some(0)
    else
      match FindBucket(data[1..], k)
      case None => None
      case Some(j) => Some(j + 1)
  }

  /** The count shown for bucket `k`: that bucket's count, or 0 when it is absent. */
  function CountFor(data: seq<Bucket>, k: nat): nat
  {
    match FindBucket(data, k)
    case None => 0
    case Some(j) => data[j].count
  }

  /** The zero-filled series of `n` entries, entry `i` drawn from bucket `i + 1`. */
  function Series(data: seq<Bucket>, n: nat): (s: seq<nat>)
    ensures |s| == n
    ensures forall i :: 0 <= i < n ==> s[i] == CountFor(data, i + 1)
  {
    seq(n, i requires 0 <= i < n => CountFor(data, i + 1))
  }

  /** The weekday labels as the handler writes them. */
  const DaysOfWeek: seq<string> := ["Mon", "Tue", "Wed", "Thu", "Fri", "Sat", "Sun"]

  /** The weekday labels in `$dayOfWeek` order, as the series is filled. */
  const DaysFromSunday: seq<string> := ["Sun", "Mon", "Tue", "Wed", "Thu", "Fri", "Sat"]

  const MonthsOfYear: seq<string> :=
    ["Jan", "Feb", "Mar", "Apr", "May", "Jun", "Jul", "Aug", "Sep", "Oct", "Nov", "Dec"]

  /** The day MongoDB's `$dayOfWeek` numbers `k` (1 is Sunday, 7 is Saturday). */
  function DayNamed(k: nat): string
    requires 1 <= k <= 7
  {
    if k == 1 then "Sun" else if k == 2 then "Mon" else if k == 3 then "Tue"
    else if k == 4 then "Wed" else if k == 5 then "Thu" else if k == 6 then "Fri" else "Sat"
  }

  /**
   * The weekly chart exactly as the handler builds it: entry `i` counts
   * bucket `i + 1`, under the label `daysOfWeek[i]`.
   */
  function WeeklyChart(data: seq<Bucket>): (r: Response)
    ensures r.Chart? && r.categories == DaysOfWeek
    ensures |r.series| == 7 && forall i :: 0 <= i < 7 ==> r.series[i] == CountFor(data, i + 1)
  {
    Chart(Series(data, 7), DaysOfWeek)
  }

  /** The corrected weekly chart: the same series, each entry under the day its bucket numbers. */
  function WeeklyChartCorrected(data: seq<Bucket>): (r: Response)
    ensures r.Chart? && r.series == WeeklyChart(data).series
    ensures |r.categories| == 7 && forall i :: 0 <= i < 7 ==> r.categories[i] == DayNamed(i + 1)
  {
    Chart(Series(data, 7), DaysFromSunday)
  }

  function MonthlyChart(data: seq<Bucket>): (r: Response)
    ensures r.Chart? && r.categories == MonthsOfYear
    ensures |r.series| == 12 && forall i :: 0 <= i < 12 ==> r.series[i] == CountFor(data, i + 1)
  {
    Chart(Series(data, 12), MonthsOfYear)
  }

  /** One entry per bucket, in the sorted order; `null.toString()` throws and the `catch` answers 500. */
  function YearlyChart(data: seq<Bucket>): (r: Response)
    ensures r.Failed? <==> exists j :: 0 <= j < |data| && data[j].key.None?
    ensures r.Failed? ==> r == Failed(500, "Error fetching data")
    ensures r.Chart? ==> |r.series| == |data| == |r.categories|
  {
    if exists j :: 0 <= j < |data| && data[j].key.None? then Failed(500, "Error fetching data")
    else
      Chart(seq(|data|, j requires 0 <= j < |data| => data[j].count),
            seq(|data|, j requires 0 <= j < |data| && data[j].key.Some? => Decimal(data[j].key.value)))
  }

  /** `getDataOnTimeFrame`, from the query string and the aggregation's output. */
  function TimeFrameData(query: Option<string>, data: seq<Bucket>): (r: Response)
    ensures ParseTimeframe(query).Err? <==> r == Failed(400, "Invalid timeframe")
    ensures ParseTimeframe(query) == Ok(Weekly) ==> r == WeeklyChart(data)
    ensures ParseTimeframe(query) == Ok(Monthly) ==> r == MonthlyChart(data)
    ensures ParseTimeframe(query) == Ok(Yearly) ==> r == YearlyChart(data)
  {
    match ParseTimeframe(query)
    case Err(m) => Failed(400, m)
    case Ok(Weekly) => WeeklyChart(data)
    case Ok(Monthly) => MonthlyChart(data)
    case Ok(Yearly) => YearlyChart(data)
  }

  /** The handler's weekday labels are shifted by one: Sunday's count appears under "Mon". */
  lemma WeekdayLabelsShifted()
    ensures var r := WeeklyChart([Bucket(Some(1), 1)]);
      r.series[0] == 1 && r.categories[0] == "Mon" && DayNamed(1) == "Sun"
    ensures forall i :: 0 <= i < 7 ==> DaysOfWeek[i] != DayNamed(i + 1)
  {
    var r := WeeklyChart([Bucket(Some(1), 1)]);
    assert FindBucket([Bucket(Some(1), 1)], 1) == Some(0);
  }

  /** In the corrected weekly chart every entry sits under the day whose bucket it counts. */
  lemma WeeklyLabelsMatchBuckets(data: seq<Bucket>)
    ensures forall i :: 0 <= i < 7 ==>
      WeeklyChartCorrected(data).categories[i] == DayNamed(i + 1) &&
      WeeklyChartCorrected(data).series[i] == CountFor(data, i + 1)
    ensures forall i :: 0 <= i < 7 ==> WeeklyChartCorrected(data).categories[i] != WeeklyChart(data).categories[i]
  {
  }

  /** The sum of a series. */
  function Sum(s: seq<nat>): nat
  {
    if |s| == 0 then 0 else Sum(s[..|s| - 1]) + s[|s| - 1]
  }

  /** How many documents the buckets hold together. */
  function Members(data: seq<Bucket>): nat
  {
    if |data| == 0 then 0 else data[0].count + Members(data[1..])
  }

  /** The counts shown for buckets 1 .. n. */
  function Shown(data: seq<Bucket>, n: nat): nat
  {
    if n == 0 then 0 else Shown(data, n - 1) + CountFor(data, n)
  }

  lemma {:induction false} SumSeries(data: seq<Bucket>, n: nat)
    ensures Sum(Series(data, n)) == Shown(data, n)
  {
    if n > 0 {
      assert Series(data, n)[..n - 1] == Series(data, n - 1);
      SumSeries(data, n - 1);
    }
  }

  lemma {:induction false} ShownEmpty(n: nat)
    ensures Shown([], n) == 0
  {
    if n > 0 {
      ShownEmpty(n - 1);
    }
  }

  /** Adding a bucket whose key is new raises the shown total by its count exactly when its key is in range. */
  lemma {:induction false} ShownCons(d: Bucket, rest: seq<Bucket>, n: nat)
    requires d.key.Some?
    requires forall j :: 0 <= j < |rest| ==> rest[j].key != d.key
    ensures Shown([d] + rest, n) == Shown(rest, n) + (if 1 <= d.key.value <= n then d.count else 0)
  {
    if n > 0 {
      ShownCons(d, rest, n - 1);
      assert ([d] + rest)[1..] == rest;
      if d.key == Some(n) {
        assert CountFor(rest, n) == 0;
      }
    }
  }

  /**
   * When every bucket has a distinct key from 1 to n (as `$group` with
   * `$dayOfWeek` or `$month` yields for documents that have the field), the
   * zero-filled series accounts for every document.
   */
  lemma {:induction false} SeriesCountsEveryone(data: seq<Bucket>, n: nat)
    requires forall j :: 0 <= j < |data| ==> data[j].key.Some? && 1 <= data[j].key.value <= n
    requires forall i, j :: 0 <= i < j < |data| ==> data[i].key != data[j].key
    ensures Sum(Series(data, n)) == Members(data)
  {
    SumSeries(data, n);
    ShownAll(data, n);
  }

  lemma {:induction false} ShownAll(data: seq<Bucket>, n: nat)
    requires forall j :: 0 <= j < |data| ==> data[j].key.Some? && 1 <= data[j].key.value <= n
    requires forall i, j :: 0 <= i < j < |data| ==> data[i].key != data[j].key
    ensures Shown(data, n) == Members(data)
  {
    if |data| == 0 {
      ShownEmpty(n);
    } else {
      var rest := data[1..];
      assert data == [data[0]] + rest;
      ShownAll(rest, n);
      ShownCons(data[0], rest, n);
    }
  }

  /** With every document in the null bucket, the weekly and monthly series are all zero. */
  lemma NullBucketsChartZero(data: seq<Bucket>, n: nat)
    requires forall j :: 0 <= j < |data| ==> data[j].key.None?
    ensures forall i :: 0 <= i < n ==> Series(data, n)[i] == 0
  {
  }

  /** Each yearly label reads back as the year of the count beside it. */
  lemma YearlyLabelsRoundTrip(data: seq<Bucket>)
    requires YearlyChart(data).Chart?
    ensures forall j :: 0 <= j < |data| ==>
      YearlyChart(data).series[j] == data[j].count && ParseId(YearlyChart(data).categories[j]) == data[j].key
  {
    forall j | 0 <= j < |data|
      ensures ParseId(YearlyChart(data).categories[j]) == data[j].key
    {
      assert data[j].key.Some?;
      ParseDecimal(data[j].key.value);
    }
  }
}
