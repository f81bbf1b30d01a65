/**
 * The data behind `barplot_avg_price_by_neighbourhood`: the 10 most
 * frequent neighbourhoods (`value_counts().head(10)`), the mean price of
 * each over the rows in those neighbourhoods, sorted ascending by mean.
 */
module TopNeighbourhoods {
  import opened Wrappers
  import opened Listings

  /** How many neighbourhoods `head(10)` keeps. */
  const TopCount := 10

  /** A bar: a neighbourhood and its mean price; `None` stands for NaN, a group without any price. */
  datatype NeighbourhoodMean = NeighbourhoodMean(name: string, mean: Option<real>)

  function Min(a: int, b: int): int {
    if a <= b then a else b
  }

  predicate NoDuplicates<T(==)>(s: seq<T>) {
    forall i, j :: 0 <= i < j < |s| ==> s[i] != s[j]
  }

  /** The neighbourhoods that occur; `value_counts` ignores missing ones. */
  function NeighbourhoodsOf(rows: seq<Listing>): set<string> {
    set r | r in rows && r.neighbourhood.Some? :: r.neighbourhood.value
  }

  /** `value_counts()` of one neighbourhood: the number of its rows. */
  function Count(rows: seq<Listing>, n: string): nat {
    if rows == [] then 0
    else (if rows[0].neighbourhood == Some(n) then 1 else 0) + Count(rows[1..], n)
  }

  /** A neighbourhood has rows exactly when it occurs. */
  lemma {:induction false} CountOccurs(rows: seq<Listing>, n: string)
    ensures Count(rows, n) <= |rows|
    ensures Count(rows, n) > 0 <==> n in NeighbourhoodsOf(rows)
  {
    if rows != [] {
      assert NeighbourhoodsOf(rows) == NeighbourhoodsOf(rows[1..]) +
        (if rows[0].neighbourhood.Some? then {rows[0].neighbourhood.value} else {});
      CountOccurs(rows[1..], n);
    }
  }

  /** Each neighbourhood that occurs, once. */
  function Distinct(rows: seq<Listing>): (ns: seq<string>)
    ensures NoDuplicates(ns)
    ensures forall n :: n in ns <==> n in NeighbourhoodsOf(rows)
  {
    if rows == [] then []
    else
      assert NeighbourhoodsOf(rows) == NeighbourhoodsOf(rows[1..]) +
        (if rows[0].neighbourhood.Some? then {rows[0].neighbourhood.value} else {});
      var rest := Distinct(rows[1..]);
      if rows[0].neighbourhood.Some? && rows[0].neighbourhood.value !in rest then [rows[0].neighbourhood.value] + rest
      else rest
  }

  /** A sequence without duplicates has as many distinct elements as entries. */
  lemma {:induction false} DistinctCardinality<T>(s: seq<T>)
    requires NoDuplicates(s)
    ensures |set x | x in s| == |s|
  {
    if s != [] {
      assert (set x | x in s) == {s[0]} + (set x | x in s[1..]);
      assert s[0] !in s[1..];
      DistinctCardinality(s[1..]);
    }
  }

  /** One entry of `value_counts()`: a neighbourhood and its number of rows. */
  datatype NeighbourhoodCount = NeighbourhoodCount(name: string, rows: nat)

  predicate ByCountDescending(s: seq<NeighbourhoodCount>) {
    forall i, j :: 0 <= i < j < |s| ==> s[i].rows >= s[j].rows
  }

  /** Inserts `e` into entries ranked by count, after those with a higher count. */
  function InsertByCount(e: NeighbourhoodCount, s: seq<NeighbourhoodCount>): (r: seq<NeighbourhoodCount>)
    ensures multiset(r) == multiset(s) + multiset{e}
  {
    if s == [] then [e]
    else if e.rows >= s[0].rows then [e] + s
    else
      assert s == [s[0]] + s[1..];
      [s[0]] + InsertByCount(e, s[1..])
  }

  /** Insertion keeps the ranking. */
  lemma {:induction false} InsertByCountSorted(e: NeighbourhoodCount, s: seq<NeighbourhoodCount>)
    requires ByCountDescending(s)
    ensures ByCountDescending(InsertByCount(e, s))
  {
    if s == [] {
    } else if e.rows >= s[0].rows {
      var r := [e] + s;
      forall i, j | 0 <= i < j < |r| ensures r[i].rows >= r[j].rows {
        assert r[j] == s[j - 1];
        if i > 0 {
          assert r[i] == s[i - 1];
        }
      }
    } else {
      assert ByCountDescending(s[1..]);
      InsertByCountSorted(e, s[1..]);
      var rest := InsertByCount(e, s[1..]);
      var r := [s[0]] + rest;
      forall i, j | 0 <= i < j < |r| ensures r[i].rows >= r[j].rows {
        if i == 0 {
          assert r[j] in multiset(rest);
          assert r[j] == e || r[j] in s[1..];
        } else {
          assert r[i] == rest[i - 1] && r[j] == rest[j - 1];
        }
      }
    }
  }

  /** Inserting a new entry into entries without duplicates leaves none. */
  lemma {:induction false} InsertByCountNoDuplicates(e: NeighbourhoodCount, s: seq<NeighbourhoodCount>)
    requires NoDuplicates(s) && e !in s
    ensures NoDuplicates(InsertByCount(e, s))
  {
    if s != [] && e.rows < s[0].rows {
      assert s == [s[0]] + s[1..];
      assert s[0] !in s[1..];
      assert NoDuplicates(s[1..]);
      InsertByCountNoDuplicates(e, s[1..]);
      var rest := InsertByCount(e, s[1..]);
      assert s[0] !in multiset(rest);
    }
  }

  /** Insertion sort by count, highest first. */
  function RankByCount(s: seq<NeighbourhoodCount>): (r: seq<NeighbourhoodCount>)
    ensures multiset(r) == multiset(s)
    ensures ByCountDescending(r)
  {
    if s == [] then []
    else
      assert s == [s[0]] + s[1..];
      InsertByCountSorted(s[0], RankByCount(s[1..]));
      InsertByCount(s[0], RankByCount(s[1..]))
  }

  /** Ranking entries without duplicates leaves none. */
  lemma {:induction false} RankByCountNoDuplicates(s: seq<NeighbourhoodCount>)
    requires NoDuplicates(s)
    ensures NoDuplicates(RankByCount(s))
  {
    if s != [] {
      assert s == [s[0]] + s[1..];
      assert NoDuplicates(s[1..]);
      RankByCountNoDuplicates(s[1..]);
      forall j | 0 <= j < |s[1..]| ensures s[1..][j] != s[0] {
        assert s[1..][j] == s[j + 1];
      }
      assert s[0] !in multiset(RankByCount(s[1..]));
      InsertByCountNoDuplicates(s[0], RankByCount(s[1..]));
    }
  }

  /** Each name with its number of rows. */
  function Tally(rows: seq<Listing>, names: seq<string>): (t: seq<NeighbourhoodCount>)
    ensures |t| == |names|
    ensures forall i :: 0 <= i < |names| ==> t[i] == NeighbourhoodCount(names[i], Count(rows, names[i]))
  {
    seq(|names|, i requires 0 <= i < |names| => NeighbourhoodCount(names[i], Count(rows, names[i])))
  }

  /** `df['neighbourhood'].value_counts()`: the neighbourhoods with their row counts, most frequent first. */
  function ValueCounts(rows: seq<Listing>): (vc: seq<NeighbourhoodCount>)
    ensures ByCountDescending(vc)
  {
    RankByCount(Tally(rows, Distinct(rows)))
  }

  /** The `.index` of a `value_counts()` result. */
  function Names(s: seq<NeighbourhoodCount>): (ns: seq<string>)
    ensures |ns| == |s|
    ensures forall i :: 0 <= i < |s| ==> ns[i] == s[i].name
  {
    seq(|s|, i requires 0 <= i < |s| => s[i].name)
  }

  /**
   * `value_counts()` lists every neighbourhood that occurs exactly once,
   * each with its true number of rows.
   */
  lemma ValueCountsSpec(rows: seq<Listing>)
    ensures |ValueCounts(rows)| == |NeighbourhoodsOf(rows)|
    ensures forall e :: e in ValueCounts(rows) ==> e.rows == Count(rows, e.name) && e.name in NeighbourhoodsOf(rows)
    ensures forall n :: n in NeighbourhoodsOf(rows) ==> NeighbourhoodCount(n, Count(rows, n)) in ValueCounts(rows)
    ensures NoDuplicates(Names(ValueCounts(rows)))
  {
    var distinct := Distinct(rows);
    var tally := Tally(rows, distinct);
    var vc := ValueCounts(rows);
    DistinctCardinality(distinct);
    assert (set x | x in distinct) == NeighbourhoodsOf(rows);
    assert |vc| == |tally| by {
      assert |multiset(vc)| == |multiset(tally)|;
    }
    assert NoDuplicates(tally);
    RankByCountNoDuplicates(tally);
    forall e | e in vc ensures e.rows == Count(rows, e.name) && e.name in NeighbourhoodsOf(rows) {
      assert e in multiset(tally);
    }
    forall n | n in NeighbourhoodsOf(rows) ensures NeighbourhoodCount(n, Count(rows, n)) in vc {
      var i :| 0 <= i < |distinct| && distinct[i] == n;
      assert tally[i] in multiset(vc);
    }
    forall i, j | 0 <= i < j < |vc| ensures Names(vc)[i] != Names(vc)[j] {
      assert vc[i] in vc && vc[j] in vc;
    }
  }

  /**
   * What `value_counts().head(10).index` may return: min(10, number of
   * neighbourhoods) distinct neighbourhoods that occur, such that no
   * neighbourhood left out has more rows than one kept. Which of several
   * equally frequent ones are kept is not fixed.
   */
  predicate IsTopSelection(rows: seq<Listing>, top: seq<string>) {
    && |top| == Min(TopCount, |NeighbourhoodsOf(rows)|)
    && NoDuplicates(top)
    && (forall n :: n in top ==> n in NeighbourhoodsOf(rows))
    && (forall s, u :: s in top && u in NeighbourhoodsOf(rows) && u !in top ==> Count(rows, u) <= Count(rows, s))
  }

  /** `df['neighbourhood'].value_counts().head(10).index`, ties kept in the order the ranking leaves them. */
  function TopNeighbourhoods(rows: seq<Listing>): (top: seq<string>)
    ensures |top| <= TopCount
  {
    var vc := ValueCounts(rows);
    Names(vc[..Min(TopCount, |vc|)])
  }

  /** The selection holds min(10, number of neighbourhoods) distinct neighbourhoods that occur. */
  lemma TopNeighbourhoodsOccur(rows: seq<Listing>)
    ensures |TopNeighbourhoods(rows)| == Min(TopCount, |NeighbourhoodsOf(rows)|)
    ensures NoDuplicates(TopNeighbourhoods(rows))
    ensures forall n :: n in TopNeighbourhoods(rows) ==> n in NeighbourhoodsOf(rows)
  {
    var vc := ValueCounts(rows);
    var k := Min(TopCount, |vc|);
    var top := TopNeighbourhoods(rows);
    ValueCountsSpec(rows);
    assert forall i :: 0 <= i < k ==> top[i] == Names(vc)[i];
    forall n | n in top ensures n in NeighbourhoodsOf(rows) {
      var i :| 0 <= i < k && top[i] == n;
      assert vc[i] in vc;
    }
  }

  /** No neighbourhood left out of the selection has more rows than one in it. */
  lemma TopNeighbourhoodsDominate(rows: seq<Listing>, s: string, u: string)
    requires s in TopNeighbourhoods(rows)
    requires u in NeighbourhoodsOf(rows) && u !in TopNeighbourhoods(rows)
    ensures Count(rows, u) <= Count(rows, s)
  {
    var vc := ValueCounts(rows);
    var k := Min(TopCount, |vc|);
    var top := TopNeighbourhoods(rows);
    ValueCountsSpec(rows);
    var i :| 0 <= i < k && top[i] == s;
    assert vc[i] in vc;
    assert vc[i].rows == Count(rows, s);
    var j :| 0 <= j < |vc| && vc[j] == NeighbourhoodCount(u, Count(rows, u));
    assert forall jj :: 0 <= jj < k ==> top[jj] == vc[jj].name;
    assert k <= j;
  }

  /** The selection is a valid top 10 by row count. */
  lemma TopNeighbourhoodsIsTopSelection(rows: seq<Listing>)
    ensures IsTopSelection(rows, TopNeighbourhoods(rows))
  {
    TopNeighbourhoodsOccur(rows);
    forall s, u | s in TopNeighbourhoods(rows) && u in NeighbourhoodsOf(rows) && u !in TopNeighbourhoods(rows)
      ensures Count(rows, u) <= Count(rows, s)
    {
      TopNeighbourhoodsDominate(rows, s, u);
    }
  }

  /** `df[df['neighbourhood'].isin(top)]`: the rows of the selected neighbourhoods, in order. */
  function InTop(rows: seq<Listing>, top: seq<string>): (r: seq<Listing>)
    ensures forall x :: x in r <==> x in rows && x.neighbourhood.Some? && x.neighbourhood.value in top
  {
    if rows == [] then []
    else if rows[0].neighbourhood.Some? && rows[0].neighbourhood.value in top then [rows[0]] + InTop(rows[1..], top)
    else InTop(rows[1..], top)
  }

  /** `isin` keeps each row of a selected neighbourhood as many times as it occurs and drops the others. */
  lemma {:induction false} InTopMultiset(rows: seq<Listing>, top: seq<string>)
    ensures forall x :: multiset(InTop(rows, top))[x] ==
                        if x.neighbourhood.Some? && x.neighbourhood.value in top then multiset(rows)[x] else 0
  {
    if rows != [] {
      InTopMultiset(rows[1..], top);
      assert rows == [rows[0]] + rows[1..];
    }
  }

  /** `isin` keeps the rows in their original order. */
  lemma {:induction false} InTopIsSubsequence(rows: seq<Listing>, top: seq<string>)
    ensures IsSubsequence(InTop(rows, top), rows)
  {
    if rows != [] {
      InTopIsSubsequence(rows[1..], top);
      if rows[0].neighbourhood.Some? && rows[0].neighbourhood.value in top {
        assert InTop(rows, top)[1..] == InTop(rows[1..], top);
      } else {
        SubsequenceOfCons(InTop(rows[1..], top), rows[0], rows[1..]);
        assert [rows[0]] + rows[1..] == rows;
      }
    }
  }

  /** The rows of `n` that have a price; `mean` skips missing prices. */
  function PricedCount(rows: seq<Listing>, n: string): nat {
    if rows == [] then 0
    else (if rows[0].neighbourhood == Some(n) && rows[0].price.Some? then 1 else 0) + PricedCount(rows[1..], n)
  }

  /** The sum of the present prices of the rows of `n`. */
  function PriceSum(rows: seq<Listing>, n: string): int {
    if rows == [] then 0
    else (if rows[0].neighbourhood == Some(n) && rows[0].price.Some? then rows[0].price.value else 0) + PriceSum(rows[1..], n)
  }

  /** `groupby('neighbourhood')['price'].mean()` for one group: sum over count, NaN when no price is present. */
  function MeanPrice(rows: seq<Listing>, n: string): Option<real> {
    if PricedCount(rows, n) == 0 then None
    else Some(PriceSum(rows, n) as real / PricedCount(rows, n) as real)
  }

  /** Keeping the rows of a set of neighbourhoods leaves the rows of each of them as they were, so its mean too. */
  lemma {:induction false} InTopKeepsGroup(rows: seq<Listing>, top: seq<string>, n: string)
    requires n in top
    ensures PricedCount(InTop(rows, top), n) == PricedCount(rows, n)
    ensures PriceSum(InTop(rows, top), n) == PriceSum(rows, n)
    ensures MeanPrice(InTop(rows, top), n) == MeanPrice(rows, n)
  {
    if rows != [] {
      InTopKeepsGroup(rows[1..], top, n);
    }
  }

  /** The mean of each group, in the order of `names`. */
  function GroupMeans(rows: seq<Listing>, names: seq<string>): (g: seq<NeighbourhoodMean>)
    ensures |g| == |names|
    ensures forall i :: 0 <= i < |names| ==> g[i] == NeighbourhoodMean(names[i], MeanPrice(rows, names[i]))
  {
    seq(|names|, i requires 0 <= i < |names| => NeighbourhoodMean(names[i], MeanPrice(rows, names[i])))
  }

  /** The order of `sort_values()`: ascending, NaN last. */
  predicate MeanLe(a: Option<real>, b: Option<real>) {
    b.None? || (a.Some? && a.value <= b.value)
  }

  predicate ByMeanAscending(s: seq<NeighbourhoodMean>) {
    forall i, j :: 0 <= i < j < |s| ==> MeanLe(s[i].mean, s[j].mean)
  }

  function InsertByMean(x: NeighbourhoodMean, s: seq<NeighbourhoodMean>): (r: seq<NeighbourhoodMean>)
    ensures multiset(r) == multiset(s) + multiset{x}
  {
    if s == [] then [x]
    else if MeanLe(x.mean, s[0].mean) then [x] + s
    else
      assert s == [s[0]] + s[1..];
      [s[0]] + InsertByMean(x, s[1..])
  }

  /** Insertion keeps the order by mean. */
  lemma {:induction false} InsertByMeanSorted(x: NeighbourhoodMean, s: seq<NeighbourhoodMean>)
    requires ByMeanAscending(s)
    ensures ByMeanAscending(InsertByMean(x, s))
  {
    if s == [] {
    } else if MeanLe(x.mean, s[0].mean) {
      var r := [x] + s;
      forall i, j | 0 <= i < j < |r| ensures MeanLe(r[i].mean, r[j].mean) {
        assert r[j] == s[j - 1];
        if i > 0 {
          assert r[i] == s[i - 1];
        }
      }
    } else {
      assert ByMeanAscending(s[1..]);
      InsertByMeanSorted(x, s[1..]);
      var rest := InsertByMean(x, s[1..]);
      var r := [s[0]] + rest;
      forall i, j | 0 <= i < j < |r| ensures MeanLe(r[i].mean, r[j].mean) {
        if i == 0 {
          assert r[j] in multiset(rest);
          assert r[j] == x || r[j] in s[1..];
        } else {
          assert r[i] == rest[i - 1] && r[j] == rest[j - 1];
        }
      }
    }
  }

  /** `sort_values()` on the group means. */
  function SortByMean(s: seq<NeighbourhoodMean>): (r: seq<NeighbourhoodMean>)
    ensures multiset(r) == multiset(s)
    ensures ByMeanAscending(r)
  {
    if s == [] then []
    else
      assert s == [s[0]] + s[1..];
      InsertByMeanSorted(s[0], SortByMean(s[1..]));
      InsertByMean(s[0], SortByMean(s[1..]))
  }

  /** The bars for a given selection of neighbourhoods. */
  function BarsFor(rows: seq<Listing>, top: seq<string>): (bars: seq<NeighbourhoodMean>)
    ensures ByMeanAscending(bars)
  {
    var selected := InTop(rows, top);
    SortByMean(GroupMeans(selected, Distinct(selected)))
  }

  /**
   * `barplot_avg_price_by_neighbourhood(df)` up to the drawing: the bars, or
   * the KeyError of the first column it reads that the table lacks.
   */
  function AvgPriceByNeighbourhood(t: Table): (res: Result<seq<NeighbourhoodMean>, KeyError>)
    ensures res.Failure? <==> NeighbourhoodColumn !in t.columns || PriceColumn !in t.columns
    ensures res.Failure? ==> res.error.column !in t.columns
  {
    if NeighbourhoodColumn !in t.columns then Failure(KeyError(NeighbourhoodColumn))
    else if PriceColumn !in t.columns then Failure(KeyError(PriceColumn))
    else Success(BarsFor(t.rows, TopNeighbourhoods(t.rows)))
  }

  /**
   * For any selection of distinct neighbourhoods that occur: one bar per
   * selected neighbourhood and no other, each with the mean price over the
   * rows of that neighbourhood only, sorted ascending by mean with NaN last.
   */
  lemma BarsForSpec(rows: seq<Listing>, top: seq<string>)
    requires NoDuplicates(top)
    requires forall n :: n in top ==> n in NeighbourhoodsOf(rows)
    ensures |BarsFor(rows, top)| == |top|
    ensures forall b :: b in BarsFor(rows, top) ==> b.name in top && b.mean == MeanPrice(rows, b.name)
    ensures forall n :: n in top ==> NeighbourhoodMean(n, MeanPrice(rows, n)) in BarsFor(rows, top)
    ensures ByMeanAscending(BarsFor(rows, top))
  {
    var selected := InTop(rows, top);
    var names := Distinct(selected);
    var means := GroupMeans(selected, names);
    var bars := BarsFor(rows, top);
    assert forall n :: n in names <==> n in top by {
      forall n ensures n in names <==> n in top {
        if n in top {
          assert n in NeighbourhoodsOf(rows);
          var x :| x in rows && x.neighbourhood.Some? && x.neighbourhood.value == n;
          assert x in selected;
        }
      }
    }
    assert |names| == |top| by {
      DistinctCardinality(names);
      DistinctCardinality(top);
      assert (set x | x in names) == (set x | x in top);
    }
    forall b | b in bars ensures b.name in top && b.mean == MeanPrice(rows, b.name) {
      assert b in multiset(means);
      var i :| 0 <= i < |means| && means[i] == b;
      InTopKeepsGroup(rows, top, names[i]);
    }
    forall n | n in top ensures NeighbourhoodMean(n, MeanPrice(rows, n)) in bars {
      var i :| 0 <= i < |names| && names[i] == n;
      InTopKeepsGroup(rows, top, n);
      assert means[i] in multiset(bars);
    }
  }

  /**
   * The bars: at most 10, one per selected neighbourhood, where the
   * selection is a valid top-10 by row count; each mean is over the rows of
   * its neighbourhood only; sorted ascending by mean, NaN last.
   */
  lemma AvgPriceByNeighbourhoodSpec(t: Table)
    requires AvgPriceByNeighbourhood(t).Success?
    ensures IsTopSelection(t.rows, TopNeighbourhoods(t.rows))
    ensures |AvgPriceByNeighbourhood(t).value| == |TopNeighbourhoods(t.rows)| <= TopCount
    ensures forall b :: b in AvgPriceByNeighbourhood(t).value ==>
      b.name in TopNeighbourhoods(t.rows) && b.mean == MeanPrice(t.rows, b.name)
    ensures forall n :: n in TopNeighbourhoods(t.rows) ==>
      NeighbourhoodMean(n, MeanPrice(t.rows, n)) in AvgPriceByNeighbourhood(t).value
    ensures ByMeanAscending(AvgPriceByNeighbourhood(t).value)
  {
    var top := TopNeighbourhoods(t.rows);
    TopNeighbourhoodsIsTopSelection(t.rows);
    BarsForSpec(t.rows, top);
    assert AvgPriceByNeighbourhood(t).value == BarsFor(t.rows, top);
  }
}
