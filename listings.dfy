/**
 * The listings table: one record per row, one field per column the script
 * touches, and the per-cell and per-column conversions it applies.
 */
module Listings {
  import opened Wrappers

  const NeighbourhoodGroupColumn := "neighbourhood_group"
  const PriceColumn := "price"
  const ReviewsPerMonthColumn := "reviews_per_month"
  const LastReviewColumn := "last_review"
  const HostNameColumn := "host_name"
  const NeighbourhoodColumn := "neighbourhood"
  const NumberOfReviewsColumn := "number_of_reviews"
  const ReviewMonthColumn := "review_month"

  /** The columns that have a field of their own in a Listing. */
  const ModelledColumns: set<string> :=
    {NeighbourhoodGroupColumn, PriceColumn, ReviewsPerMonthColumn, LastReviewColumn,
     HostNameColumn, NeighbourhoodColumn, NumberOfReviewsColumn, ReviewMonthColumn}

  /** The value `fillna` puts into a missing host name. */
  const UnknownHost := "Unknown"

  /** A calendar day; the time of day of a parsed timestamp plays no part here. */
  datatype CalendarDay = CalendarDay(year: int, month: int, day: int)

  /** A day a timestamp can hold: a four-digit year, a month 1..12, a day 1..31. */
  type Date = d: CalendarDay | 1 <= d.year <= 9999 && 1 <= d.month <= 12 && 1 <= d.day <= 31
    witness CalendarDay(1970, 1, 1)

  datatype Month = Month(year: int, month: int)

  /** A monthly period, the key `to_period('M')` produces. */
  type YearMonth = m: Month | 1 <= m.year <= 9999 && 1 <= m.month <= 12
    witness Month(1970, 1)

  /** A `last_review` cell: the raw text read from the file, or a parsed timestamp. */
  datatype ReviewCell = Text(raw: string) | Stamp(date: Date)

  /** The lenient date parser `pd.to_datetime`: `None` where the text does not parse. */
  type DateParser = string -> Option<Date>

  /**
   * One row. A column the table lacks reads as `None` in every row (see
   * `Agrees`); `others` holds the remaining columns as text, untouched by
   * every step of the script.
   */
  datatype Listing = Listing(
    neighbourhoodGroup: Option<string>,
    price: Option<int>,
    reviewsPerMonth: Option<real>,
    lastReview: Option<ReviewCell>,
    hostName: Option<string>,
    neighbourhood: Option<string>,
    numberOfReviews: Option<int>,
    reviewMonth: Option<YearMonth>,
    others: map<string, string>)

  /** A table: its column names and its rows, in order. */
  datatype Table = Table(columns: set<string>, rows: seq<Listing>)

  /** Reading a column the table lacks, `df[name]`, raises this. */
  datatype KeyError = KeyError(column: string)

  /** A row carries values only in columns the table has. */
  predicate Agrees(columns: set<string>, r: Listing) {
    && (NeighbourhoodGroupColumn !in columns ==> r.neighbourhoodGroup.None?)
    && (PriceColumn !in columns ==> r.price.None?)
    && (ReviewsPerMonthColumn !in columns ==> r.reviewsPerMonth.None?)
    && (LastReviewColumn !in columns ==> r.lastReview.None?)
    && (HostNameColumn !in columns ==> r.hostName.None?)
    && (NeighbourhoodColumn !in columns ==> r.neighbourhood.None?)
    && (NumberOfReviewsColumn !in columns ==> r.numberOfReviews.None?)
    && (ReviewMonthColumn !in columns ==> r.reviewMonth.None?)
    && (forall k :: k in r.others ==> k in columns && k !in ModelledColumns)
  }

  /** Every row agrees with the table's columns. */
  predicate WellFormed(t: Table) {
    forall i :: 0 <= i < |t.rows| ==> Agrees(t.columns, t.rows[i])
  }

  /** `pd.to_datetime(cell, errors='coerce')`: text is parsed, a failed parse gives NaT, a timestamp stays. */
  function ToDatetime(parse: DateParser, c: Option<ReviewCell>): (c': Option<ReviewCell>)
    ensures c'.None? || c'.value.Stamp?
    ensures c.None? ==> c'.None?
    ensures c.Some? && c.value.Stamp? ==> c' == c
    ensures c.Some? && c.value.Text? ==>
      (parse(c.value.raw).None? ==> c'.None?) &&
      (parse(c.value.raw).Some? ==> c' == Some(Stamp(parse(c.value.raw).value)))
  {
    match c
    case None => None
    case Some(Stamp(d)) => c
    case Some(Text(s)) =>
      match parse(s)
      case None => None
      case Some(d) => Some(Stamp(d))
  }

  /** `.dt.to_period('M')` on a timestamp cell: the year and month; NaT stays missing. */
  function ToPeriod(c: Option<ReviewCell>): (m: Option<YearMonth>)
    ensures m.Some? <==> c.Some? && c.value.Stamp?
    ensures m.Some? ==> m.value.year == c.value.date.year && m.value.month == c.value.date.month
  {
    match c
    case Some(Stamp(d)) => Some(Month(d.year, d.month))
    case _ => None
  }

  /** A column assignment `df[col] = f(df[col])`: `f` applied to every row, order kept. */
  function MapRows(f: Listing -> Listing, rows: seq<Listing>): (r: seq<Listing>)
    ensures |r| == |rows|
    ensures forall i :: 0 <= i < |rows| ==> r[i] == f(rows[i])
  {
    seq(|rows|, i requires 0 <= i < |rows| => f(rows[i]))
  }

  /** `a` occurs in `b` in order, possibly with gaps. */
  predicate IsSubsequence<T(==)>(a: seq<T>, b: seq<T>)
    decreases |b|
  {
    a == [] || (b != [] && if a[0] == b[0] then IsSubsequence(a[1..], b[1..]) else IsSubsequence(a, b[1..]))
  }

  /** Prepending an element keeps a subsequence a subsequence. */
  lemma {:induction false} SubsequenceOfCons<T>(a: seq<T>, x: T, b: seq<T>)
    requires IsSubsequence(a, b)
    ensures IsSubsequence(a, [x] + b)
    decreases |b|, 1
  {
    if a != [] && a[0] == x {
      SubsequenceDropHead(a, b);
      assert ([x] + b)[1..] == b;
    } else if a != [] {
      assert ([x] + b)[1..] == b;
    }
  }

  /** The tail of a subsequence is a subsequence. */
  lemma {:induction false} SubsequenceDropHead<T>(a: seq<T>, b: seq<T>)
    requires a != [] && IsSubsequence(a, b)
    ensures IsSubsequence(a[1..], b)
    decreases |b|, 0
  {
    if a[0] == b[0] {
      assert IsSubsequence(a[1..], b[1..]);
      SubsequenceOfCons(a[1..], b[0], b[1..]);
      assert [b[0]] + b[1..] == b;
    } else {
      SubsequenceDropHead(a, b[1..]);
      SubsequenceOfCons(a[1..], b[0], b[1..]);
      assert [b[0]] + b[1..] == b;
    }
  }

  // Per-row effects of the column rules.

  /** The row with its `neighbourhood_group` cell removed. */
  function ClearGroup(r: Listing): (r': Listing)
    ensures r'.neighbourhoodGroup.None?
    ensures r'.(neighbourhoodGroup := r.neighbourhoodGroup) == r
  {
    r.(neighbourhoodGroup := None)
  }

  /** `fillna(0)` on `reviews_per_month`. */
  function FillReviewsRow(r: Listing): (r': Listing)
    ensures r'.reviewsPerMonth == Some(r.reviewsPerMonth.GetOr(0.0))
    ensures r'.(reviewsPerMonth := r.reviewsPerMonth) == r
  {
    if r.reviewsPerMonth.None? then r.(reviewsPerMonth := Some(0.0)) else r
  }

  /** `to_datetime(errors='coerce')` on `last_review`. */
  function CoerceRow(parse: DateParser, r: Listing): (r': Listing)
    ensures r'.lastReview == ToDatetime(parse, r.lastReview)
    ensures r'.(lastReview := r.lastReview) == r
  {
    r.(lastReview := ToDatetime(parse, r.lastReview))
  }

  /** `fillna("Unknown")` on `host_name`. */
  function FillHostRow(r: Listing): (r': Listing)
    ensures r'.hostName == Some(r.hostName.GetOr(UnknownHost))
    ensures r'.(hostName := r.hostName) == r
  {
    if r.hostName.None? then r.(hostName := Some(UnknownHost)) else r
  }

  /** `review_month` derived from `last_review`. */
  function MonthRow(r: Listing): (r': Listing)
    ensures r'.reviewMonth == ToPeriod(r.lastReview)
    ensures r'.(reviewMonth := r.reviewMonth) == r
  {
    r.(reviewMonth := ToPeriod(r.lastReview))
  }

  /** The rows whose price is present, in their original order (the mask `~df['price'].isna()`). */
  function KeepPriced(rows: seq<Listing>): (r: seq<Listing>)
    ensures |r| <= |rows|
    ensures forall x :: x in r ==> x.price.Some?
    ensures forall x :: x in r <==> x in rows && x.price.Some?
    ensures IsSubsequence(r, rows)
  {
    if rows == [] then []
    else if rows[0].price.Some? then [rows[0]] + KeepPriced(rows[1..])
    else KeepPriced(rows[1..])
  }

  /** The mask keeps each priced row as many times as it occurs and drops the others. */
  lemma {:induction false} KeepPricedMultiset(rows: seq<Listing>)
    ensures forall x :: multiset(KeepPriced(rows))[x] == if x.price.Some? then multiset(rows)[x] else 0
  {
    if rows != [] {
      KeepPricedMultiset(rows[1..]);
      assert rows == [rows[0]] + rows[1..];
    }
  }

  /** The number of rows without a price. */
  function UnpricedCount(rows: seq<Listing>): nat {
    if rows == [] then 0 else (if rows[0].price.None? then 1 else 0) + UnpricedCount(rows[1..])
  }

  /** The mask removes exactly the unpriced rows: as many rows fewer as there are rows without a price. */
  lemma {:induction false} KeepPricedLength(rows: seq<Listing>)
    ensures |KeepPriced(rows)| == |rows| - UnpricedCount(rows)
  {
    if rows != [] {
      KeepPricedLength(rows[1..]);
    }
  }

  // Whole-table steps. Each requires the column it reads: pandas raises KeyError otherwise.

  /** `df.drop(columns=['neighbourhood_group'])`. */
  function WithoutGroupColumn(t: Table): (t': Table)
    requires NeighbourhoodGroupColumn in t.columns
    ensures t'.columns == t.columns - {NeighbourhoodGroupColumn}
    ensures t'.rows == MapRows(ClearGroup, t.rows)
    ensures WellFormed(t) ==> WellFormed(t')
  {
    Table(t.columns - {NeighbourhoodGroupColumn}, MapRows(ClearGroup, t.rows))
  }

  /** The price mask applied to a table. */
  function PricedOnly(t: Table): (t': Table)
    requires PriceColumn in t.columns
    ensures t'.columns == t.columns
    ensures t'.rows == KeepPriced(t.rows)
    ensures WellFormed(t) ==> WellFormed(t')
  {
    Table(t.columns, KeepPriced(t.rows))
  }

  /** `fillna(0)` on the whole `reviews_per_month` column. */
  function WithReviewsFilled(t: Table): (t': Table)
    requires ReviewsPerMonthColumn in t.columns
    ensures t'.columns == t.columns
    ensures t'.rows == MapRows(FillReviewsRow, t.rows)
    ensures WellFormed(t) ==> WellFormed(t')
  {
    Table(t.columns, MapRows(FillReviewsRow, t.rows))
  }

  /** The lenient `to_datetime` on the whole `last_review` column. */
  function WithDatesCoerced(t: Table, parse: DateParser): (t': Table)
    requires LastReviewColumn in t.columns
    ensures t'.columns == t.columns
    ensures t'.rows == MapRows(r => CoerceRow(parse, r), t.rows)
    ensures WellFormed(t) ==> WellFormed(t')
  {
    Table(t.columns, MapRows(r => CoerceRow(parse, r), t.rows))
  }

  /** `fillna("Unknown")` on the whole `host_name` column. */
  function WithHostFilled(t: Table): (t': Table)
    requires HostNameColumn in t.columns
    ensures t'.columns == t.columns
    ensures t'.rows == MapRows(FillHostRow, t.rows)
    ensures WellFormed(t) ==> WellFormed(t')
  {
    Table(t.columns, MapRows(FillHostRow, t.rows))
  }

  /** A new `review_month` column: the month of each row's `last_review`. */
  function WithReviewMonth(t: Table): (t': Table)
    requires LastReviewColumn in t.columns
    ensures t'.columns == t.columns + {ReviewMonthColumn}
    ensures t'.rows == MapRows(MonthRow, t.rows)
    ensures WellFormed(t) ==> WellFormed(t')
  {
    Table(t.columns + {ReviewMonthColumn}, MapRows(MonthRow, t.rows))
  }
}
