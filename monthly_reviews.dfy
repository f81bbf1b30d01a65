/**
 * The data behind `lineplot_total_reviews_by_month`: `last_review` coerced
 * to dates, a `review_month` column, the group-sum of `number_of_reviews`
 * per month in ascending month order, the months as "YYYY-MM" labels, and
 * every third month as an axis tick.
 */
module MonthlyReviews {
  import opened Wrappers
  import opened Listings
  import opened DataFrame

  /** One point of the line: a month and its total number of reviews. */
  datatype MonthTotal = MonthTotal(month: YearMonth, reviews: int)

  /** What the line plot is drawn from. */
  datatype ReviewChart = ReviewChart(
    series: seq<MonthTotal>,
    labels: seq<string>,
    tickPositions: seq<int>,
    tickLabels: seq<string>)

  /** Every third point carries an axis label. */
  const TickStride := 3

  /** Chronological order of months. */
  predicate Before(a: YearMonth, b: YearMonth) {
    a.year < b.year || (a.year == b.year && a.month < b.month)
  }

  predicate StrictlyAscending(s: seq<MonthTotal>) {
    forall i, j :: 0 <= i < j < |s| ==> Before(s[i].month, s[j].month)
  }

  function Months(s: seq<MonthTotal>): set<YearMonth> {
    set e | e in s :: e.month
  }

  /** The months of the rows whose `review_month` is present. */
  function DatedMonths(rows: seq<Listing>): set<YearMonth> {
    set r | r in rows && r.reviewMonth.Some? :: r.reviewMonth.value
  }

  /** Reference total: the reviews of the rows in month `m`; a missing count adds nothing, as `sum` skips NaN. */
  function MonthSum(rows: seq<Listing>, m: YearMonth): int {
    if rows == [] then 0
    else (if rows[0].reviewMonth == Some(m) then rows[0].numberOfReviews.GetOr(0) else 0) + MonthSum(rows[1..], m)
  }

  /** The total a series records for `m`, 0 when it has no entry for `m`. */
  function Lookup(s: seq<MonthTotal>, m: YearMonth): (n: int)
    ensures m !in Months(s) ==> n == 0
  {
    if s == [] then 0 else if s[0].month == m then s[0].reviews else Lookup(s[1..], m)
  }

  /** An entry placed before an ascending series whose months all follow it keeps it ascending. */
  lemma ConsAscending(h: MonthTotal, s: seq<MonthTotal>)
    requires StrictlyAscending(s)
    requires forall e :: e in s ==> Before(h.month, e.month)
    ensures StrictlyAscending([h] + s)
  {
    forall i, j | 0 <= i < j < |[h] + s| ensures Before(([h] + s)[i].month, ([h] + s)[j].month) {
      if i == 0 {
        assert ([h] + s)[j] == s[j - 1];
        assert s[j - 1] in s;
      } else {
        assert ([h] + s)[i] == s[i - 1] && ([h] + s)[j] == s[j - 1];
      }
    }
  }

  /** Adds `n` reviews to month `m` of an ascending series, inserting the month where it belongs. */
  function AddTo(s: seq<MonthTotal>, m: YearMonth, n: int): (s': seq<MonthTotal>)
    ensures Months(s') == Months(s) + {m}
    ensures StrictlyAscending(s) ==> StrictlyAscending(s')
  {
    if s == [] then [MonthTotal(m, n)]
    else if s[0].month == m then
      assert StrictlyAscending(s) ==> StrictlyAscending([MonthTotal(m, s[0].reviews + n)] + s[1..]) by {
        if StrictlyAscending(s) {
          assert StrictlyAscending(s[1..]);
          forall e | e in s[1..] ensures Before(m, e.month) {
            var j :| 0 <= j < |s[1..]| && s[1..][j] == e;
            assert s[j + 1] == e;
          }
          ConsAscending(MonthTotal(m, s[0].reviews + n), s[1..]);
        }
      }
      [MonthTotal(m, s[0].reviews + n)] + s[1..]
    else if Before(m, s[0].month) then
      assert StrictlyAscending(s) ==> StrictlyAscending([MonthTotal(m, n)] + s) by {
        if StrictlyAscending(s) {
          forall e | e in s ensures Before(m, e.month) {
            var j :| 0 <= j < |s| && s[j] == e;
            if j > 0 { assert Before(s[0].month, s[j].month); }
          }
          ConsAscending(MonthTotal(m, n), s);
        }
      }
      [MonthTotal(m, n)] + s
    else
      var rest := AddTo(s[1..], m, n);
      assert Months(s) == {s[0].month} + Months(s[1..]);
      assert StrictlyAscending(s) ==> StrictlyAscending([s[0]] + rest) by {
        if StrictlyAscending(s) {
          assert StrictlyAscending(s[1..]);
          forall e | e in rest ensures Before(s[0].month, e.month) {
            assert e.month in Months(rest);
            if e.month != m {
              var j :| 0 <= j < |s[1..]| && s[1..][j].month == e.month;
              assert s[j + 1].month == e.month;
            }
          }
          ConsAscending(s[0], rest);
        }
      }
      assert Months([s[0]] + rest) == {s[0].month} + Months(rest) by {
        forall e | e in [s[0]] + rest ensures e == s[0] || e in rest {}
      }
      [s[0]] + rest
  }

  /** Adding to an ascending series raises the total of `m`, by `n`, and of no other month. */
  lemma {:induction false} AddToLookup(s: seq<MonthTotal>, m: YearMonth, n: int, k: YearMonth)
    requires StrictlyAscending(s)
    ensures Lookup(AddTo(s, m, n), k) == Lookup(s, k) + (if k == m then n else 0)
  {
    if s != [] && s[0].month != m && !Before(m, s[0].month) {
      assert StrictlyAscending(s[1..]);
      AddToLookup(s[1..], m, n, k);
      assert AddTo(s, m, n) == [s[0]] + AddTo(s[1..], m, n);
      assert ([s[0]] + AddTo(s[1..], m, n))[1..] == AddTo(s[1..], m, n);
    } else if s != [] && s[0].month == m {
      assert ([MonthTotal(m, s[0].reviews + n)] + s[1..])[1..] == s[1..];
    } else if s != [] {
      assert ([MonthTotal(m, n)] + s)[1..] == s;
    }
  }

  /**
   * `df.groupby('review_month')['number_of_reviews'].sum()`: one entry per
   * month present, months ascending, each with the sum over its rows.
   */
  function GroupSum(rows: seq<Listing>): (s: seq<MonthTotal>)
    ensures StrictlyAscending(s)
    ensures Months(s) == DatedMonths(rows)
    ensures forall m :: Lookup(s, m) == MonthSum(rows, m)
  {
    if rows == [] then []
    else
      assert DatedMonths(rows) == DatedMonths(rows[1..]) +
        (if rows[0].reviewMonth.Some? then {rows[0].reviewMonth.value} else {});
      match rows[0].reviewMonth
      case None => GroupSum(rows[1..])
      case Some(m) =>
        var rest := GroupSum(rows[1..]);
        var n := rows[0].numberOfReviews.GetOr(0);
        assert forall k :: Lookup(AddTo(rest, m, n), k) == MonthSum(rows, k) by {
          forall k ensures Lookup(AddTo(rest, m, n), k) == MonthSum(rows, k) {
            AddToLookup(rest, m, n, k);
          }
        }
        AddTo(rest, m, n)
  }

  /** In an ascending series, the entry for a month is the one `Lookup` finds. */
  lemma {:induction false} LookupAt(s: seq<MonthTotal>, i: int)
    requires StrictlyAscending(s) && 0 <= i < |s|
    ensures Lookup(s, s[i].month) == s[i].reviews
  {
    if i > 0 {
      assert Before(s[0].month, s[i].month);
      assert s[1..][i - 1] == s[i];
      LookupAt(s[1..], i - 1);
    }
  }

  /** An ascending series has as many entries as distinct months. */
  lemma {:induction false} AscendingCardinality(s: seq<MonthTotal>)
    requires StrictlyAscending(s)
    ensures |Months(s)| == |s|
  {
    if s != [] {
      assert Months(s) == {s[0].month} + Months(s[1..]);
      assert s[0].month !in Months(s[1..]) by {
        forall e | e in s[1..] ensures e.month != s[0].month {
          var j :| 0 <= j < |s[1..]| && s[1..][j] == e;
          assert Before(s[0].month, s[j + 1].month);
        }
      }
      AscendingCardinality(s[1..]);
    }
  }

  /**
   * The monthly series has exactly one entry per distinct month present,
   * each holding the sum of `number_of_reviews` over that month's rows, in
   * strictly ascending month order.
   */
  lemma GroupSumSpec(rows: seq<Listing>)
    ensures |GroupSum(rows)| == |DatedMonths(rows)|
    ensures Months(GroupSum(rows)) == DatedMonths(rows)
    ensures StrictlyAscending(GroupSum(rows))
    ensures forall i :: 0 <= i < |GroupSum(rows)| ==>
      GroupSum(rows)[i].reviews == MonthSum(rows, GroupSum(rows)[i].month)
  {
    var s := GroupSum(rows);
    AscendingCardinality(s);
    forall i | 0 <= i < |s| ensures s[i].reviews == MonthSum(rows, s[i].month) {
      LookupAt(s, i);
    }
  }

  /** The rows whose review month is present. */
  function Dated(rows: seq<Listing>): (r: seq<Listing>)
    ensures forall x :: x in r <==> x in rows && x.reviewMonth.Some?
  {
    if rows == [] then []
    else if rows[0].reviewMonth.Some? then [rows[0]] + Dated(rows[1..])
    else Dated(rows[1..])
  }

  /** `Dated` keeps each dated row as many times as it occurs and drops the others. */
  lemma {:induction false} DatedMultiset(rows: seq<Listing>)
    ensures forall x :: multiset(Dated(rows))[x] == if x.reviewMonth.Some? then multiset(rows)[x] else 0
  {
    if rows != [] {
      DatedMultiset(rows[1..]);
      assert rows == [rows[0]] + rows[1..];
    }
  }

  /** `Dated` keeps the rows in their original order. */
  lemma {:induction false} DatedIsSubsequence(rows: seq<Listing>)
    ensures IsSubsequence(Dated(rows), rows)
  {
    if rows != [] {
      DatedIsSubsequence(rows[1..]);
      if rows[0].reviewMonth.Some? {
        assert (Dated(rows))[1..] == Dated(rows[1..]);
      } else {
        SubsequenceOfCons(Dated(rows[1..]), rows[0], rows[1..]);
        assert [rows[0]] + rows[1..] == rows;
      }
    }
  }

  /** Rows without a month contribute nothing: dropping them leaves the series as it is. */
  lemma {:induction false} GroupSumIgnoresUndated(rows: seq<Listing>)
    ensures GroupSum(Dated(rows)) == GroupSum(rows)
  {
    if rows != [] {
      GroupSumIgnoresUndated(rows[1..]);
      if rows[0].reviewMonth.Some? {
        assert Dated(rows)[1..] == Dated(rows[1..]);
      }
    }
  }

  /** A row in month `m` with `n` reviews and nothing else, for the example below. */
  function ReviewedIn(m: YearMonth, n: int): Listing {
    Listing(None, Some(100), None, None, None, None, Some(n), Some(m), map[])
  }

  /** Months 2021-01, 2021-01, 2021-02 with 3, 5 and 2 reviews give [(2021-01, 8), (2021-02, 2)]. */
  lemma GroupSumExample()
    ensures GroupSum([ReviewedIn(Month(2021, 1), 3), ReviewedIn(Month(2021, 1), 5), ReviewedIn(Month(2021, 2), 2)])
         == [MonthTotal(Month(2021, 1), 8), MonthTotal(Month(2021, 2), 2)]
  {
    var rows := [ReviewedIn(Month(2021, 1), 3), ReviewedIn(Month(2021, 1), 5), ReviewedIn(Month(2021, 2), 2)];
    assert rows[1..][1..] == [ReviewedIn(Month(2021, 2), 2)];
    assert GroupSum(rows[1..][1..]) == [MonthTotal(Month(2021, 2), 2)];
    assert GroupSum(rows[1..]) == [MonthTotal(Month(2021, 1), 5), MonthTotal(Month(2021, 2), 2)];
  }

  // Labels: `Period.astype(str)` writes a month as "YYYY-MM".

  function DigitChar(d: int): char
    requires 0 <= d <= 9
  {
    (48 + d) as char
  }

  predicate IsDigit(c: char) {
    '0' <= c <= '9'
  }

  function DigitValue(c: char): int {
    c as int - 48
  }

  /** The label the plot shows for a month. */
  function MonthLabel(m: YearMonth): (s: string)
    ensures |s| == 7 && s[4] == '-'
  {
    [DigitChar(m.year / 1000), DigitChar(m.year / 100 % 10), DigitChar(m.year / 10 % 10), DigitChar(m.year % 10),
     '-', DigitChar(m.month / 10), DigitChar(m.month % 10)]
  }

  /** Reads a "YYYY-MM" label back as a month. */
  function ParseMonthLabel(s: string): Option<YearMonth> {
    if |s| == 7 && s[4] == '-' && IsDigit(s[0]) && IsDigit(s[1]) && IsDigit(s[2]) && IsDigit(s[3])
       && IsDigit(s[5]) && IsDigit(s[6]) then
      var y := 1000 * DigitValue(s[0]) + 100 * DigitValue(s[1]) + 10 * DigitValue(s[2]) + DigitValue(s[3]);
      var mo := 10 * DigitValue(s[5]) + DigitValue(s[6]);
      if 1 <= y <= 9999 && 1 <= mo <= 12 then Some(Month(y, mo)) else None
    else None
  }

  /** A number below 10000 is the value of its four decimal digits. */
  lemma FourDigits(y: int)
    requires 0 <= y <= 9999
    ensures 0 <= y / 1000 <= 9 && 0 <= y / 100 % 10 <= 9 && 0 <= y / 10 % 10 <= 9 && 0 <= y % 10 <= 9
    ensures y == 1000 * (y / 1000) + 100 * (y / 100 % 10) + 10 * (y / 10 % 10) + y % 10
  {
    var t := y / 10;
    assert y == 10 * t + y % 10;
    var h := t / 10;
    assert t == 10 * h + t % 10;
    assert h == 10 * (h / 10) + h % 10;
    assert y / 100 == h && y / 1000 == h / 10;
  }

  /** A label determines its month: reading it back gives the month. */
  lemma LabelRoundTrip(m: YearMonth)
    ensures ParseMonthLabel(MonthLabel(m)) == Some(m)
  {
    FourDigits(m.year);
    var s := MonthLabel(m);
    assert DigitValue(s[0]) == m.year / 1000 && DigitValue(s[1]) == m.year / 100 % 10;
    assert DigitValue(s[2]) == m.year / 10 % 10 && DigitValue(s[3]) == m.year % 10;
    assert DigitValue(s[5]) == m.month / 10 && DigitValue(s[6]) == m.month % 10;
    assert m.month == 10 * (m.month / 10) + m.month % 10;
  }

  /** Distinct months get distinct labels. */
  lemma LabelInjective(a: YearMonth, b: YearMonth)
    requires MonthLabel(a) == MonthLabel(b)
    ensures a == b
  {
    LabelRoundTrip(a);
    LabelRoundTrip(b);
  }

  // Ticks.

  /** `range(start, stop, 3)`. */
  function StrideRange(start: int, stop: int): (r: seq<int>)
    ensures |r| == if start < stop then (stop - start + TickStride - 1) / TickStride else 0
    ensures forall i :: 0 <= i < |r| ==> r[i] == start + TickStride * i && r[i] < stop
    decreases stop - start
  {
    if start >= stop then [] else [start] + StrideRange(start + TickStride, stop)
  }

  /** `s[::3]`. */
  function EveryThird<T>(s: seq<T>): (r: seq<T>)
    ensures |r| == (|s| + TickStride - 1) / TickStride
    ensures forall i :: 0 <= i < |r| ==> TickStride * i < |s| && r[i] == s[TickStride * i]
    decreases |s|
  {
    if s == [] then []
    else if |s| <= TickStride then [s[0]]
    else
      var tail := s[TickStride..];
      var rest := EveryThird(tail);
      var r := [s[0]] + rest;
      assert |r| == (|s| + TickStride - 1) / TickStride;
      assert forall i :: 0 <= i < |r| ==> TickStride * i < |s| && r[i] == s[TickStride * i] by {
        forall i | 0 <= i < |r| ensures TickStride * i < |s| && r[i] == s[TickStride * i] {
          if i > 0 {
            assert r[i] == rest[i - 1] == tail[TickStride * (i - 1)];
            assert TickStride * (i - 1) + TickStride == TickStride * i;
          }
        }
      }
      r
  }

  /** The labels of a series, one per point. */
  function Labels(s: seq<MonthTotal>): (l: seq<string>)
    ensures |l| == |s|
    ensures forall i :: 0 <= i < |s| ==> l[i] == MonthLabel(s[i].month)
  {
    seq(|s|, i requires 0 <= i < |s| => MonthLabel(s[i].month))
  }

  /**
   * What the line plot is drawn from: the monthly series, its labels, and
   * ticks at positions 0, 3, 6, ... below the series length, each labelled
   * with the month at that position; there are ceil(n/3) of them.
   */
  function ChartData(rows: seq<Listing>): (c: ReviewChart)
    ensures c.series == GroupSum(rows)
    ensures |c.labels| == |c.series|
    ensures forall i :: 0 <= i < |c.series| ==> c.labels[i] == MonthLabel(c.series[i].month)
    ensures |c.tickPositions| == |c.tickLabels| == (|c.series| + TickStride - 1) / TickStride
    ensures forall i :: 0 <= i < |c.tickPositions| ==>
      && c.tickPositions[i] == TickStride * i
      && c.tickPositions[i] < |c.series|
      && c.tickLabels[i] == c.labels[c.tickPositions[i]]
  {
    var series := GroupSum(rows);
    var labels := Labels(series);
    ReviewChart(series, labels, StrideRange(0, |series|), EveryThird(labels))
  }

  /**
   * `lineplot_total_reviews_by_month(df)` up to the drawing: it overwrites
   * the caller's `last_review` with parsed dates and adds `review_month`,
   * then group-sums `number_of_reviews`. Reading a column the frame lacks
   * raises KeyError; by the time `number_of_reviews` is read the frame has
   * already been changed.
   */
  method LineplotTotalReviewsByMonth(df: Frame, parse: DateParser) returns (res: Result<ReviewChart, KeyError>)
    modifies df
    ensures LastReviewColumn !in old(df.columns) ==>
      res == Failure(KeyError(LastReviewColumn)) && unchanged(df)
    ensures LastReviewColumn in old(df.columns) ==>
      df.Value() == WithReviewMonth(WithDatesCoerced(old(df.Value()), parse))
    ensures LastReviewColumn in old(df.columns) && NumberOfReviewsColumn !in old(df.columns) ==>
      res == Failure(KeyError(NumberOfReviewsColumn))
    ensures LastReviewColumn in old(df.columns) && NumberOfReviewsColumn in old(df.columns) ==>
      res == Success(ChartData(df.rows))
  {
    if LastReviewColumn !in df.columns {
      return Failure(KeyError(LastReviewColumn));
    }
    df.CoerceLastReview(parse);
    df.AssignReviewMonth();
    if NumberOfReviewsColumn !in df.columns {
      return Failure(KeyError(NumberOfReviewsColumn));
    }
    res := Success(ChartData(df.rows));
  }
}
