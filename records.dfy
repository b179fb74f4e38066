/** The tabular data the pipeline works on: price rows keyed by market and
    date, one nullable price column per commodity, and the mutable data frame
    that the cleaners receive from their caller. */
module Records {
  import opened Results

  /** A calendar date, already parsed from the `price_date` text. */
  datatype Date = Date(year: int, month: int, day: int)

  /** A monthly period, the value of the derived `year_month` column. */
  datatype YearMonth = YearMonth(year: int, month: int)

  /** The five constant columns the multi-country loaders attach to every row
      of a country: `country`, `country_code`, `region`, `sub_region` and
      `population_millions`. */
  datatype CountryProfile = CountryProfile(
    country: string,
    code: string,
    region: string,
    subRegion: string,
    populationMillions: nat)

  /** One row of a price table. `prices` maps each commodity column present in
      the row to its cell, `None` standing for NaN; `yearMonth` and `profile`
      are `None` until the cleaner or a loader has written those columns. */
  datatype Row = Row(
    market: string,
    date: Date,
    currency: string,
    yearMonth: Option<YearMonth>,
    prices: map<string, Option<int>>,
    profile: Option<CountryProfile>)

  /** A data frame: the commodity columns it has, and its rows in index order. */
  datatype Table = Table(columns: set<string>, rows: seq<Row>)

  /** The aggregate pseudo-market that the data source mixes into the markets. */
  const MarketAverage: string := "Market Average"

  /** The cell of column `c` in row `r`; a row that lacks the column reads as
      NaN, as rows do after a concatenation with frames that have it. */
  function Cell(r: Row, c: string): Option<int>
  {
    if c in r.prices then r.prices[c] else None
  }

  /** The monthly period a date falls in (`dt.to_period('M')`). */
  function MonthOf(d: Date): YearMonth
  {
    YearMonth(d.year, d.month)
  }

  /** Column `c` has at least one non-NaN cell among `rows`
      (`not df[c].isna().all()`). */
  predicate HasValue(rows: seq<Row>, c: string)
  {
    exists i :: 0 <= i < |rows| && Cell(rows[i], c).Some?
  }

  /** A data frame object that callers hand to a cleaner, which updates it in
      place. */
  class Frame {
    var table: Table

    constructor (t: Table)
      ensures table == t
    {
      table := t;
    }
  }
}
