/** The cleaning step shared by every per-country cleaner, parametrised by the
    country's commodity columns, and the computations the cleaner scripts make
    on a cleaned table: the available-commodities list, the per-market
    non-null counts of the market summaries and the per-commodity counts of
    the availability report. */
module Cleaning {
  import opened Results
  import opened Records
  import opened Sequences

  /** `df[commodity_cols]` raises a KeyError naming the listed columns that the
      frame does not have. */
  datatype CleanError = MissingColumns(missing: seq<string>)

  /** The row has a non-NaN price in at least one of `cols`
      (`df[cols].notna().any(axis=1)`). */
  predicate AnyPrice(cols: seq<string>, r: Row)
  {
    exists i :: 0 <= i < |cols| && Cell(r, cols[i]).Some?
  }

  function Priced(cols: seq<string>): Row -> bool
  {
    (r: Row) => AnyPrice(cols, r)
  }

  /** The row belongs to a real market, not the aggregate pseudo-market. */
  predicate RealMarket(r: Row)
  {
    r.market != MarketAverage
  }

  /** The rows a cleaner keeps: priced, and from a real market. */
  function Qualifies(cols: seq<string>): Row -> bool
  {
    Both(Priced(cols), RealMarket)
  }

  /** The row's `year_month` cell holds the month of its `price_date`. */
  predicate Stamped(r: Row)
  {
    r.yearMonth == Some(MonthOf(r.date))
  }

  /** The frame after `df['year_month'] = df['price_date'].dt.to_period('M')`:
      every row gets the month of its date and nothing else changes. */
  function StampYearMonth(t: Table): (r: Table)
    ensures r.columns == t.columns && |r.rows| == |t.rows|
    ensures forall i :: 0 <= i < |r.rows| ==>
      Stamped(r.rows[i]) && r.rows[i].(yearMonth := None) == t.rows[i].(yearMonth := None)
  {
    Table(t.columns, seq(|t.rows|, i requires 0 <= i < |t.rows| => t.rows[i].(yearMonth := Some(MonthOf(t.rows[i].date)))))
  }

  /** Rows whose `year_month` is already set are left as they are. */
  lemma StampKeepsStamped(t: Table)
    requires forall x :: x in t.rows ==> Stamped(x)
    ensures StampYearMonth(t) == t
  {
    var r := StampYearMonth(t);
    forall i | 0 <= i < |t.rows|
      ensures r.rows[i] == t.rows[i]
    {
      assert t.rows[i] in t.rows;
    }
  }

  /** The two mask filters of the cleaner: first rows with some price, then rows
      of real markets. */
  function CleanRows(cols: seq<string>, rows: seq<Row>): (r: seq<Row>)
    ensures |r| <= |rows|
    ensures forall x :: x in r ==> x in rows && AnyPrice(cols, x) && RealMarket(x)
  {
    Filter(RealMarket, Filter(Priced(cols), rows))
  }

  function Absent(columns: set<string>): string -> bool
  {
    c => c !in columns
  }

  /** The listed columns that the frame lacks, in list order. */
  function MissingFrom(t: Table, cols: seq<string>): (r: seq<string>)
    ensures r == [] <==> forall i :: 0 <= i < |cols| ==> cols[i] in t.columns
    ensures forall c :: c in r ==> c in cols && c !in t.columns
  {
    var r := Filter(Absent(t.columns), cols);
    assert r == [] ==> forall i :: 0 <= i < |cols| ==> cols[i] in t.columns by {
      forall i | 0 <= i < |cols| && cols[i] !in t.columns
        ensures r != []
      {
        FilterKeeps(Absent(t.columns), cols, cols[i]);
      }
    }
    assert r != [] ==> exists i :: 0 <= i < |cols| && cols[i] !in t.columns by {
      if r != [] {
        assert r[0] in r;
      }
    }
    r
  }

  /** Selecting `cols` and filtering on them: fails when a listed column is
      missing, otherwise keeps the columns and the qualifying rows. */
  function CleanTable(t: Table, cols: seq<string>): (r: Result<Table, CleanError>)
    ensures r.Failure? <==> exists i :: 0 <= i < |cols| && cols[i] !in t.columns
    ensures r.Failure? ==>
      r.error.missing != [] && forall c :: c in r.error.missing ==> c in cols && c !in t.columns
    ensures r.Success? ==> r.value.columns == t.columns
    ensures r.Success? ==> forall x :: x in r.value.rows ==> x in t.rows && AnyPrice(cols, x) && RealMarket(x)
  {
    var missing := MissingFrom(t, cols);
    if missing != [] then
      Failure(MissingColumns(missing))
    else
      Success(Table(t.columns, CleanRows(cols, t.rows)))
  }

  /** The column condition of `CleanTable` and `MarketSummary`, read as set
      inclusion. */
  lemma ListedColumnsPresent(t: Table, cols: seq<string>, names: set<string>)
    requires forall c :: c in names <==> c in cols
    ensures (forall i :: 0 <= i < |cols| ==> cols[i] in t.columns) <==> names <= t.columns
  {
    if names <= t.columns {
      forall i | 0 <= i < |cols|
        ensures cols[i] in t.columns
      {
        assert cols[i] in names;
      }
    }
  }

  /** A priced row has a non-NaN cell in some listed column. */
  lemma PricedRowHasListedPrice(cols: seq<string>, x: Row)
    requires AnyPrice(cols, x)
    ensures exists c :: c in cols && Cell(x, c).Some?
  {
    var i :| 0 <= i < |cols| && Cell(x, cols[i]).Some?;
    assert cols[i] in cols;
  }

  /** The cleaner for a country with commodity columns `cols`. It first writes
      `year_month` into the caller's frame, then raises on a missing commodity
      column or returns a new table of the qualifying rows. */
  method CleanCountryData(frame: Frame, cols: seq<string>) returns (r: Result<Table, CleanError>)
    modifies frame
    ensures frame.table == StampYearMonth(old(frame.table))
    ensures forall i :: 0 <= i < |frame.table.rows| ==> Stamped(frame.table.rows[i])
    ensures r == CleanTable(frame.table, cols)
    ensures r.Success? ==> forall x :: x in r.value.rows ==> Stamped(x) && AnyPrice(cols, x) && RealMarket(x)
  {
    frame.table := StampYearMonth(frame.table);
    r := CleanTable(frame.table, cols);
  }

  /** The cleaned rows are exactly the qualifying input rows, as unchanged
      copies and in input order. */
  lemma CleanRowsSelection(cols: seq<string>, rows: seq<Row>)
    ensures SelectedAt(CleanRows(cols, rows), rows, Positions(Qualifies(cols), rows))
    ensures forall j :: 0 <= j < |rows| ==>
      (AnyPrice(cols, rows[j]) && RealMarket(rows[j]) <==> j in Positions(Qualifies(cols), rows))
  {
    FilterFilter(Priced(cols), RealMarket, rows);
    FilterIsOrderedSelection(Qualifies(cols), rows);
  }

  /** Every occurrence of a qualifying row is kept, and nothing else. */
  lemma CleanRowsComplete(cols: seq<string>, rows: seq<Row>, x: Row)
    ensures multiset(CleanRows(cols, rows))[x] ==
      if AnyPrice(cols, x) && RealMarket(x) then multiset(rows)[x] else 0
  {
    FilterFilter(Priced(cols), RealMarket, rows);
    FilterMultiplicity(Qualifies(cols), rows, x);
  }

  /** Dropping the aggregate market before the rows without a price gives the
      same rows. */
  lemma CleanFiltersCommute(cols: seq<string>, rows: seq<Row>)
    ensures Filter(Priced(cols), Filter(RealMarket, rows)) == CleanRows(cols, rows)
  {
    FilterCommutes(Priced(cols), RealMarket, rows);
  }

  /** Cleaning a frame that holds a cleaner's output returns the same rows. */
  lemma CleanIdempotent(t: Table, cols: seq<string>)
    ensures var once := CleanTable(StampYearMonth(t), cols);
      once.Success? ==> CleanTable(StampYearMonth(once.value), cols) == once
  {
    var once := CleanTable(StampYearMonth(t), cols);
    if once.Success? {
      var c := once.value;
      StampKeepsStamped(c);
      FilterAll(Qualifies(cols), c.rows);
      FilterFilter(Priced(cols), RealMarket, c.rows);
    }
  }

  function NonNull(c: string): Row -> bool
  {
    (r: Row) => Cell(r, c).Some?
  }

  function InMarket(m: string): Row -> bool
  {
    (r: Row) => r.market == m
  }

  /** Number of non-NaN cells of column `c` (`df[c].notna().sum()`). */
  function NonNullCount(rows: seq<Row>, c: string): nat
  {
    |Filter(NonNull(c), rows)|
  }

  /** The `count` aggregate of column `c` in the group of market `m`. */
  function MarketCount(rows: seq<Row>, m: string, c: string): nat
  {
    NonNullCount(Filter(InMarket(m), rows), c)
  }

  /** The `mkt_name` column. */
  function MarketNames(rows: seq<Row>): (r: seq<string>)
    ensures |r| == |rows| && forall i :: 0 <= i < |rows| ==> r[i] == rows[i].market
  {
    seq(|rows|, i requires 0 <= i < |rows| => rows[i].market)
  }

  /** The distinct markets, in order of first appearance. */
  function Markets(rows: seq<Row>): seq<string>
  {
    Distinct(MarketNames(rows))
  }

  /** The count part of a market summary (`df.groupby('mkt_name').agg(...)`):
      one group per market occurring in the frame, and in each group the
      non-NaN count of every listed commodity. Listing a column the frame lacks
      raises. */
  function MarketSummary(t: Table, cols: seq<string>): (r: Result<map<string, map<string, nat>>, CleanError>)
    ensures r.Failure? <==> exists i :: 0 <= i < |cols| && cols[i] !in t.columns
    ensures r.Success? ==> forall m :: m in r.value <==> exists i :: 0 <= i < |t.rows| && t.rows[i].market == m
    ensures r.Success? ==> forall m :: m in r.value ==>
      && (forall c :: c in r.value[m] <==> c in cols)
      && (forall c :: c in cols ==> r.value[m][c] == MarketCount(t.rows, m, c))
  {
    var missing := MissingFrom(t, cols);
    if missing != [] then
      Failure(MissingColumns(missing))
    else
      var markets := set i | 0 <= i < |t.rows| :: t.rows[i].market;
      Success(map m | m in markets :: map c | c in cols :: MarketCount(t.rows, m, c))
  }

  /** A market's count is at most its number of rows, and is positive exactly
      when the market has a non-NaN cell in the column. */
  lemma MarketCountMeaning(rows: seq<Row>, m: string, c: string)
    ensures MarketCount(rows, m, c) <= |Filter(InMarket(m), rows)|
    ensures MarketCount(rows, m, c) > 0 <==>
      exists i :: 0 <= i < |rows| && rows[i].market == m && Cell(rows[i], c).Some?
  {
    var group := Filter(InMarket(m), rows);
    if MarketCount(rows, m, c) > 0 {
      var x := Filter(NonNull(c), group)[0];
      assert x in Filter(NonNull(c), group);
      var i :| 0 <= i < |rows| && rows[i] == x;
    }
    if exists i :: 0 <= i < |rows| && rows[i].market == m && Cell(rows[i], c).Some? {
      var i :| 0 <= i < |rows| && rows[i].market == m && Cell(rows[i], c).Some?;
      FilterKeeps(InMarket(m), rows, rows[i]);
      FilterKeeps(NonNull(c), group, rows[i]);
    }
  }

  /** The non-NaN count of a column is positive exactly when the column is not
      all NaN. */
  lemma NonNullCountPositive(rows: seq<Row>, c: string)
    ensures NonNullCount(rows, c) > 0 <==> HasValue(rows, c)
  {
    if NonNullCount(rows, c) > 0 {
      var x := Filter(NonNull(c), rows)[0];
      assert x in Filter(NonNull(c), rows);
      var i :| 0 <= i < |rows| && rows[i] == x;
    }
    if HasValue(rows, c) {
      var i :| 0 <= i < |rows| && Cell(rows[i], c).Some?;
      FilterKeeps(NonNull(c), rows, rows[i]);
    }
  }

  /** The counts of column `c` over the markets `ms`, added up. */
  function SumMarketCounts(rows: seq<Row>, ms: seq<string>, c: string): nat
  {
    if ms == [] then 0 else MarketCount(rows, ms[0], c) + SumMarketCounts(rows, ms[1..], c)
  }

  lemma NonNullCountCons(rows: seq<Row>, c: string)
    requires rows != []
    ensures NonNullCount(rows, c) ==
      NonNullCount(rows[1..], c) + if Cell(rows[0], c).Some? then 1 else 0
  {
  }

  lemma MarketCountCons(rows: seq<Row>, m: string, c: string)
    requires rows != []
    ensures MarketCount(rows, m, c) ==
      MarketCount(rows[1..], m, c) + if rows[0].market == m && Cell(rows[0], c).Some? then 1 else 0
  {
    var rest := Filter(InMarket(m), rows[1..]);
    if rows[0].market == m {
      assert Filter(InMarket(m), rows) == [rows[0]] + rest;
      NonNullCountCons([rows[0]] + rest, c);
      assert ([rows[0]] + rest)[1..] == rest;
    }
  }

  lemma {:induction false} SumOfNoRows(ms: seq<string>, c: string)
    ensures SumMarketCounts([], ms, c) == 0
  {
    if ms != [] {
      SumOfNoRows(ms[1..], c);
    }
  }

  lemma {:induction false} SumMarketCountsCons(rows: seq<Row>, ms: seq<string>, c: string)
    requires rows != [] && NoDuplicates(ms)
    ensures SumMarketCounts(rows, ms, c) ==
      SumMarketCounts(rows[1..], ms, c) + if rows[0].market in ms && Cell(rows[0], c).Some? then 1 else 0
  {
    if ms != [] {
      assert NoDuplicates(ms[1..]) by {
        forall i, j | 0 <= i < j < |ms[1..]|
          ensures ms[1..][i] != ms[1..][j]
        {
          assert ms[1..][i] == ms[i + 1] && ms[1..][j] == ms[j + 1];
        }
      }
      SumMarketCountsCons(rows, ms[1..], c);
      MarketCountCons(rows, ms[0], c);
      assert rows[0].market in ms <==> rows[0].market == ms[0] || rows[0].market in ms[1..];
      if rows[0].market == ms[0] {
        assert rows[0].market !in ms[1..];
      }
    }
  }

  lemma {:induction false} SumMarketCountsCovers(rows: seq<Row>, ms: seq<string>, c: string)
    requires NoDuplicates(ms)
    requires forall i :: 0 <= i < |rows| ==> rows[i].market in ms
    ensures SumMarketCounts(rows, ms, c) == NonNullCount(rows, c)
  {
    if rows == [] {
      SumOfNoRows(ms, c);
    } else {
      SumMarketCountsCovers(rows[1..], ms, c);
      SumMarketCountsCons(rows, ms, c);
      NonNullCountCons(rows, c);
    }
  }

  /** The per-market counts of a column add up, over all markets of the frame,
      to the column's overall non-NaN count. */
  lemma MarketCountsAddUp(rows: seq<Row>, c: string)
    ensures SumMarketCounts(rows, Markets(rows), c) == NonNullCount(rows, c)
  {
    var names := MarketNames(rows);
    forall i | 0 <= i < |rows|
      ensures rows[i].market in Markets(rows)
    {
      assert names[i] in names;
    }
    SumMarketCountsCovers(rows, Markets(rows), c);
  }

  /** On a cleaned table every market has a positive count for some commodity. */
  lemma CleanedMarketHasCount(cols: seq<string>, rows: seq<Row>, m: string)
    requires forall x :: x in rows ==> AnyPrice(cols, x)
    requires exists i :: 0 <= i < |rows| && rows[i].market == m
    ensures exists j :: 0 <= j < |cols| && MarketCount(rows, m, cols[j]) > 0
  {
    var i :| 0 <= i < |rows| && rows[i].market == m;
    assert rows[i] in rows;
    var j :| 0 <= j < |cols| && Cell(rows[i], cols[j]).Some?;
    MarketCountMeaning(rows, m, cols[j]);
  }

  function HasValueIn(rows: seq<Row>): string -> bool
  {
    c => HasValue(rows, c)
  }

  /** The "commodities available" list: the listed columns that are not all
      NaN, in list order. */
  function AvailableCommodities(rows: seq<Row>, cols: seq<string>): (r: seq<string>)
    ensures forall c :: c in r ==> c in cols && HasValue(rows, c)
  {
    Filter(HasValueIn(rows), cols)
  }

  /** The available list, extended by one listed column at a time. */
  lemma AvailableSnoc(rows: seq<Row>, cols: seq<string>, c: string)
    ensures AvailableCommodities(rows, cols + [c]) ==
      AvailableCommodities(rows, cols) + if HasValue(rows, c) then [c] else []
  {
    FilterAppend(HasValueIn(rows), cols, [c]);
    assert [c][1..] == [];
  }

  /** The available list holds exactly the listed columns with a non-NaN cell,
      in the order of the list. */
  lemma AvailableInListOrder(rows: seq<Row>, cols: seq<string>)
    ensures SelectedAt(AvailableCommodities(rows, cols), cols, Positions(HasValueIn(rows), cols))
    ensures forall j :: 0 <= j < |cols| ==>
      (HasValue(rows, cols[j]) <==> j in Positions(HasValueIn(rows), cols))
  {
    FilterIsOrderedSelection(HasValueIn(rows), cols);
  }

  /** A non-empty cleaned table has at least one available commodity. */
  lemma AvailableNonEmpty(rows: seq<Row>, cols: seq<string>)
    requires rows != []
    requires forall x :: x in rows ==> AnyPrice(cols, x)
    ensures AvailableCommodities(rows, cols) != []
  {
    assert rows[0] in rows;
    var j :| 0 <= j < |cols| && Cell(rows[0], cols[j]).Some?;
    FilterKeeps(HasValueIn(rows), cols, cols[j]);
  }

  /** The availability report: the non-NaN count of each listed commodity. */
  method CommodityCounts(rows: seq<Row>, cols: seq<string>) returns (counts: seq<nat>)
    ensures |counts| == |cols|
    ensures forall k :: 0 <= k < |cols| ==> counts[k] == NonNullCount(rows, cols[k])
    ensures forall k :: 0 <= k < |cols| ==> (counts[k] > 0 <==> HasValue(rows, cols[k]))
  {
    counts := [];
    for k := 0 to |cols|
      invariant |counts| == k
      invariant forall j :: 0 <= j < k ==> counts[j] == NonNullCount(rows, cols[j])
      invariant forall j :: 0 <= j < k ==> (counts[j] > 0 <==> HasValue(rows, cols[j]))
    {
      NonNullCountPositive(rows, cols[k]);
      counts := counts + [NonNullCount(rows, cols[k])];
    }
  }
}
