/**
 * The pandas DataFrame as a mutable object: its column set and its rows.
 * A method whose pandas operation returns a new frame (`copy`, `drop`, a
 * boolean mask) returns a fresh Frame; a column assignment `df[col] = ...`
 * updates this one.
 */
module DataFrame {
  import opened Listings

  class Frame {
    var columns: set<string>
    var rows: seq<Listing>

    constructor (t: Table)
      ensures Value() == t
    {
      columns := t.columns;
      rows := t.rows;
    }

    /** The table this frame currently holds. */
    function Value(): Table
      reads this
    {
      Table(columns, rows)
    }

    /** `df.copy()`. */
    method Copy() returns (c: Frame)
      ensures fresh(c) && c.Value() == Value()
    {
      c := new Frame(Value());
    }

    /** `df.drop(columns=['neighbourhood_group'])`: a new frame without the column. */
    method DropNeighbourhoodGroup() returns (c: Frame)
      requires NeighbourhoodGroupColumn in columns
      ensures fresh(c) && c.Value() == WithoutGroupColumn(Value())
    {
      c := new Frame(WithoutGroupColumn(Value()));
    }

    /** `df[~df['price'].isna()]`: a new frame of the priced rows. */
    method SelectPriced() returns (c: Frame)
      requires PriceColumn in columns
      ensures fresh(c) && c.Value() == PricedOnly(Value())
    {
      c := new Frame(PricedOnly(Value()));
    }

    /** Fills the missing `reviews_per_month` cells with 0, in place. */
    method FillReviewsPerMonth()
      requires ReviewsPerMonthColumn in columns
      modifies this
      ensures Value() == WithReviewsFilled(old(Value()))
    {
      rows := MapRows(FillReviewsRow, rows);
    }

    /** Coerces the `last_review` column to dates, in place. */
    method CoerceLastReview(parse: DateParser)
      requires LastReviewColumn in columns
      modifies this
      ensures Value() == WithDatesCoerced(old(Value()), parse)
    {
      rows := MapRows(r => CoerceRow(parse, r), rows);
    }

    /** Fills the missing `host_name` cells with "Unknown", in place. */
    method FillHostName()
      requires HostNameColumn in columns
      modifies this
      ensures Value() == WithHostFilled(old(Value()))
    {
      rows := MapRows(FillHostRow, rows);
    }

    /** Adds the `review_month` column derived from `last_review`, in place. */
    method AssignReviewMonth()
      requires LastReviewColumn in columns
      modifies this
      ensures Value() == WithReviewMonth(old(Value()))
    {
      columns := columns + {ReviewMonthColumn};
      rows := MapRows(MonthRow, rows);
    }
  }
}
