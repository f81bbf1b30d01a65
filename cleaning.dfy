/**
 * `clean_listings_data`: drop `neighbourhood_group` if present, drop the
 * rows without a price, fill `reviews_per_month` with 0, coerce
 * `last_review` to dates, fill `host_name` with "Unknown".
 */
module Cleaning {
  import opened Wrappers
  import opened Listings
  import opened DataFrame

  /** The columns the cleaner reads, in the order it reads them. */
  const RequiredColumns: seq<string> := [PriceColumn, ReviewsPerMonthColumn, LastReviewColumn, HostNameColumn]

  /** The table has every column the cleaner reads. */
  predicate HasRequiredColumns(t: Table) {
    PriceColumn in t.columns && ReviewsPerMonthColumn in t.columns &&
    LastReviewColumn in t.columns && HostNameColumn in t.columns
  }

  /** What the cleaner makes of one input row that has a price. */
  function CleanRow(columns: set<string>, parse: DateParser, r: Listing): (r': Listing)
    ensures r'.neighbourhoodGroup == if NeighbourhoodGroupColumn in columns then None else r.neighbourhoodGroup
    ensures r'.price == r.price
    ensures r'.reviewsPerMonth == Some(r.reviewsPerMonth.GetOr(0.0))
    ensures r'.lastReview == ToDatetime(parse, r.lastReview)
    ensures r'.hostName == Some(r.hostName.GetOr(UnknownHost))
    ensures r'.neighbourhood == r.neighbourhood && r'.numberOfReviews == r.numberOfReviews
    ensures r'.reviewMonth == r.reviewMonth && r'.others == r.others
  {
    var g := if NeighbourhoodGroupColumn in columns then ClearGroup(r) else r;
    FillHostRow(CoerceRow(parse, FillReviewsRow(g)))
  }

  /**
   * The cleaner on a table: the cleaned table, or the KeyError of the
   * first required column it lacks, in the order the steps read them.
   */
  function Clean(t: Table, parse: DateParser): (res: Result<Table, KeyError>)
    ensures res.Success? <==> HasRequiredColumns(t)
    ensures res.Failure? ==> res.error.column in RequiredColumns && res.error.column !in t.columns
    ensures res.Failure? ==> forall i :: 0 <= i < |RequiredColumns| && RequiredColumns[i] == res.error.column ==>
      forall j :: 0 <= j < i ==> RequiredColumns[j] in t.columns
    ensures res.Success? ==> res.value.columns == t.columns - {NeighbourhoodGroupColumn}
  {
    var dropped := if NeighbourhoodGroupColumn in t.columns then WithoutGroupColumn(t) else t;
    if PriceColumn !in dropped.columns then Failure(KeyError(PriceColumn))
    else
      var priced := PricedOnly(dropped);
      if ReviewsPerMonthColumn !in priced.columns then Failure(KeyError(ReviewsPerMonthColumn))
      else
        var filled := WithReviewsFilled(priced);
        if LastReviewColumn !in filled.columns then Failure(KeyError(LastReviewColumn))
        else
          var coerced := WithDatesCoerced(filled, parse);
          if HostNameColumn !in coerced.columns then Failure(KeyError(HostNameColumn))
          else Success(WithHostFilled(coerced))
  }

  /** A row's cleaning does not depend on it passing the price mask first. */
  lemma {:induction false} KeepPricedClearGroup(rows: seq<Listing>)
    ensures KeepPriced(MapRows(ClearGroup, rows)) == MapRows(ClearGroup, KeepPriced(rows))
  {
    if rows != [] {
      assert MapRows(ClearGroup, rows)[1..] == MapRows(ClearGroup, rows[1..]);
      KeepPricedClearGroup(rows[1..]);
      if rows[0].price.Some? {
        assert MapRows(ClearGroup, [rows[0]] + KeepPriced(rows[1..]))
            == [ClearGroup(rows[0])] + MapRows(ClearGroup, KeepPriced(rows[1..]));
      }
    }
  }

  /**
   * The surviving rows are exactly the priced input rows, in their input
   * order, each cleaned by `CleanRow`.
   */
  lemma CleanRowsArePricedRowsCleaned(t: Table, parse: DateParser)
    requires HasRequiredColumns(t)
    ensures Clean(t, parse).value.rows == MapRows(r => CleanRow(t.columns, parse, r), KeepPriced(t.rows))
  {
    var f := r => CleanRow(t.columns, parse, r);
    var dropped := if NeighbourhoodGroupColumn in t.columns then WithoutGroupColumn(t) else t;
    var kept := KeepPriced(t.rows);
    var priced := PricedOnly(dropped);
    var filled := WithReviewsFilled(priced);
    var coerced := WithDatesCoerced(filled, parse);
    var cleaned := WithHostFilled(coerced).rows;
    assert Clean(t, parse).value.rows == cleaned;
    if NeighbourhoodGroupColumn in t.columns {
      KeepPricedClearGroup(t.rows);
      assert priced.rows == MapRows(ClearGroup, kept);
    } else {
      assert priced.rows == kept;
    }
    assert |cleaned| == |kept|;
    forall i | 0 <= i < |kept| ensures cleaned[i] == f(kept[i]) {
      assert cleaned[i] == FillHostRow(coerced.rows[i]);
      assert coerced.rows[i] == CoerceRow(parse, filled.rows[i]);
      assert filled.rows[i] == FillReviewsRow(priced.rows[i]);
    }
  }

  /** Mapping a row function over the priced rows gives a subsequence of mapping it over all rows. */
  lemma {:induction false} MappedPricedIsSubsequence(f: Listing -> Listing, rows: seq<Listing>)
    ensures IsSubsequence(MapRows(f, KeepPriced(rows)), MapRows(f, rows))
  {
    if rows != [] {
      var tail := rows[1..];
      MappedPricedIsSubsequence(f, tail);
      var mapped := MapRows(f, rows);
      assert mapped[1..] == MapRows(f, tail);
      if rows[0].price.Some? {
        assert KeepPriced(rows) == [rows[0]] + KeepPriced(tail);
        var kept := MapRows(f, KeepPriced(rows));
        assert kept[0] == f(rows[0]) == mapped[0];
        assert kept[1..] == MapRows(f, KeepPriced(tail));
      } else {
        assert mapped == [f(rows[0])] + MapRows(f, tail);
        SubsequenceOfCons(MapRows(f, KeepPriced(tail)), f(rows[0]), MapRows(f, tail));
      }
    }
  }

  /**
   * Survivors keep their relative order: the cleaned rows are a
   * subsequence of the input rows, each cleaned; every priced input row
   * survives and every surviving row comes from a priced input row.
   */
  lemma CleanKeepsPricedRowsInOrder(t: Table, parse: DateParser)
    requires HasRequiredColumns(t)
    ensures IsSubsequence(Clean(t, parse).value.rows, MapRows(r => CleanRow(t.columns, parse, r), t.rows))
    ensures forall r :: r in t.rows && r.price.Some? ==> CleanRow(t.columns, parse, r) in Clean(t, parse).value.rows
    ensures forall r' :: r' in Clean(t, parse).value.rows ==>
      exists r :: r in t.rows && r.price.Some? && r' == CleanRow(t.columns, parse, r)
  {
    var f := r => CleanRow(t.columns, parse, r);
    CleanRowsArePricedRowsCleaned(t, parse);
    MappedPricedIsSubsequence(f, t.rows);
    var kept := KeepPriced(t.rows);
    var cleaned := Clean(t, parse).value.rows;
    forall r | r in t.rows && r.price.Some? ensures f(r) in cleaned {
      var i :| 0 <= i < |kept| && kept[i] == r;
      assert cleaned[i] == f(r);
    }
    forall r' | r' in cleaned ensures exists r :: r in t.rows && r.price.Some? && r' == f(r) {
      var i :| 0 <= i < |cleaned| && cleaned[i] == r';
      assert kept[i] in kept;
    }
  }

  /** A row with an unparseable `last_review` is kept, with the date missing. */
  lemma CleanKeepsUnparseableDate(t: Table, parse: DateParser, r: Listing)
    requires HasRequiredColumns(t)
    requires r in t.rows && r.price.Some?
    requires r.lastReview.Some? && r.lastReview.value.Text? && parse(r.lastReview.value.raw).None?
    ensures CleanRow(t.columns, parse, r) in Clean(t, parse).value.rows
    ensures CleanRow(t.columns, parse, r).lastReview.None?
  {
    CleanKeepsPricedRowsInOrder(t, parse);
  }

  /** A row with a parseable `last_review` is kept, with the parsed date. */
  lemma CleanParsesDate(t: Table, parse: DateParser, r: Listing)
    requires HasRequiredColumns(t)
    requires r in t.rows && r.price.Some?
    requires r.lastReview.Some? && r.lastReview.value.Text? && parse(r.lastReview.value.raw).Some?
    ensures CleanRow(t.columns, parse, r) in Clean(t, parse).value.rows
    ensures CleanRow(t.columns, parse, r).lastReview == Some(Stamp(parse(r.lastReview.value.raw).value))
  {
    CleanKeepsPricedRowsInOrder(t, parse);
  }

  /** On a well-formed table no cleaned row holds a `neighbourhood_group` value. */
  lemma CleanDropsGroupValues(t: Table, parse: DateParser)
    requires WellFormed(t) && HasRequiredColumns(t)
    ensures forall r :: r in Clean(t, parse).value.rows ==> r.neighbourhoodGroup.None?
  {
    var c := Clean(t, parse).value;
    assert NeighbourhoodGroupColumn !in c.columns;
    forall r | r in c.rows ensures r.neighbourhoodGroup.None? {
      var i :| 0 <= i < |c.rows| && c.rows[i] == r;
      assert Agrees(c.columns, c.rows[i]);
    }
  }

  /** A cleaned row is cleaned again to itself. */
  lemma CleanRowIdempotent(columns: set<string>, parse: DateParser, r: Listing)
    requires NeighbourhoodGroupColumn !in columns
    requires r.reviewsPerMonth.Some? && r.hostName.Some?
    requires r.lastReview.None? || r.lastReview.value.Stamp?
    ensures CleanRow(columns, parse, r) == r
  {
  }

  /** Filtering rows that all have a price keeps them all. */
  lemma {:induction false} KeepPricedAllPriced(rows: seq<Listing>)
    requires forall r :: r in rows ==> r.price.Some?
    ensures KeepPriced(rows) == rows
  {
    if rows != [] {
      assert forall r :: r in rows[1..] ==> r in rows;
      KeepPricedAllPriced(rows[1..]);
      assert [rows[0]] + rows[1..] == rows;
    }
  }

  /**
   * After cleaning no row has a missing price, `reviews_per_month` or
   * `host_name`, no `last_review` is left as unparsed text, and the row
   * count has not grown.
   */
  lemma CleanFillsAndFilters(t: Table, parse: DateParser)
    requires HasRequiredColumns(t)
    ensures |Clean(t, parse).value.rows| <= |t.rows|
    ensures forall r :: r in Clean(t, parse).value.rows ==>
      && r.price.Some?
      && r.reviewsPerMonth.Some?
      && r.hostName.Some?
      && (r.lastReview.None? || r.lastReview.value.Stamp?)
  {
    CleanRowsArePricedRowsCleaned(t, parse);
    var kept := KeepPriced(t.rows);
    var cleaned := Clean(t, parse).value.rows;
    forall r | r in cleaned
      ensures r.price.Some? && r.reviewsPerMonth.Some? && r.hostName.Some?
      ensures r.lastReview.None? || r.lastReview.value.Stamp?
    {
      var i :| 0 <= i < |cleaned| && cleaned[i] == r;
      assert kept[i] in kept;
    }
  }

  /** Cleaning removes exactly one row per row without a price. */
  lemma CleanRowCount(t: Table, parse: DateParser)
    requires HasRequiredColumns(t)
    ensures |Clean(t, parse).value.rows| == |t.rows| - UnpricedCount(t.rows)
  {
    CleanRowsArePricedRowsCleaned(t, parse);
    KeepPricedLength(t.rows);
  }

  /** Cleaning keeps every row in agreement with the table's columns. */
  lemma CleanPreservesWellFormed(t: Table, parse: DateParser)
    requires WellFormed(t) && HasRequiredColumns(t)
    ensures WellFormed(Clean(t, parse).value)
  {
    var dropped := if NeighbourhoodGroupColumn in t.columns then WithoutGroupColumn(t) else t;
    assert WellFormed(dropped);
    assert WellFormed(WithHostFilled(WithDatesCoerced(WithReviewsFilled(PricedOnly(dropped)), parse)));
  }

  /**
   * Cleaning already-cleaned data changes nothing: no further row is
   * dropped and the fills and the date coercion are no-ops.
   */
  lemma CleanIdempotent(t: Table, parse: DateParser)
    requires HasRequiredColumns(t)
    ensures Clean(Clean(t, parse).value, parse) == Clean(t, parse)
  {
    var c := Clean(t, parse).value;
    CleanFillsAndFilters(t, parse);
    assert HasRequiredColumns(c);
    KeepPricedAllPriced(c.rows);
    CleanRowsArePricedRowsCleaned(c, parse);
    var again := Clean(c, parse).value;
    assert again.columns == c.columns;
    assert |again.rows| == |c.rows|;
    forall i | 0 <= i < |c.rows| ensures again.rows[i] == c.rows[i] {
      assert c.rows[i] in c.rows;
      CleanRowIdempotent(c.columns, parse, c.rows[i]);
    }
    assert again.rows == c.rows;
    assert again == c;
  }

  /**
   * `clean_listings_data(df)`: works on a copy, so the caller's frame is left
   * as it was; on success the new frame holds `Clean` of the input, otherwise
   * the KeyError of the first required column that is missing.
   */
  method CleanListingsData(df: Frame, parse: DateParser) returns (res: Result<Frame, KeyError>)
    ensures Clean(df.Value(), parse).Success? <==> res.Success?
    ensures res.Success? ==> fresh(res.value) && res.value.Value() == Clean(df.Value(), parse).value
    ensures res.Failure? ==> res.error == Clean(df.Value(), parse).error
  {
    var cleaned := df.Copy();
    if NeighbourhoodGroupColumn in cleaned.columns {
      cleaned := cleaned.DropNeighbourhoodGroup();
    }
    if PriceColumn !in cleaned.columns {
      return Failure(KeyError(PriceColumn));
    }
    cleaned := cleaned.SelectPriced();
    if ReviewsPerMonthColumn !in cleaned.columns {
      return Failure(KeyError(ReviewsPerMonthColumn));
    }
    cleaned.FillReviewsPerMonth();
    if LastReviewColumn !in cleaned.columns {
      return Failure(KeyError(LastReviewColumn));
    }
    cleaned.CoerceLastReview(parse);
    if HostNameColumn !in cleaned.columns {
      return Failure(KeyError(HostNameColumn));
    }
    cleaned.FillHostName();
    res := Success(cleaned);
  }
}
