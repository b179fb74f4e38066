/** The Nigeria cleaner. */
module NigeriaCleaner {
  import opened Results
  import opened Records
  import Cleaning

  /** The commodity columns the Nigeria cleaner selects and filters on. */
  const Commodities: seq<string> := ["rice", "sorghum", "beans", "millet", "yam"]

  /** A column is missing exactly when the listed columns are not all among
      the frame's columns. */
  lemma MissingIffNotIncluded(t: Table)
    ensures (exists i :: 0 <= i < |Commodities| && Commodities[i] !in t.columns) <==>
      !({"rice", "sorghum", "beans", "millet", "yam"} <= t.columns)
  {
    Cleaning.ListedColumnsPresent(t, Commodities, {"rice", "sorghum", "beans", "millet", "yam"});
  }

  /** A priced row has a price for one of the listed commodities. */
  lemma PricedHasListedPrice(x: Row)
    requires Cleaning.AnyPrice(Commodities, x)
    ensures || Cell(x, "rice").Some? || Cell(x, "sorghum").Some? || Cell(x, "beans").Some?
            || Cell(x, "millet").Some? || Cell(x, "yam").Some?
  {
    Cleaning.PricedRowHasListedPrice(Commodities, x);
  }

  /** Cleans a Nigeria frame: stamps `year_month` on every row of the caller's
      frame, then returns the rows with a rice, sorghum, beans, millet or yam
      price that are not the aggregate market. */
  method CleanNigeriaData(frame: Frame) returns (r: Result<Table, Cleaning.CleanError>)
    modifies frame
    ensures frame.table == Cleaning.StampYearMonth(old(frame.table))
    ensures r == Cleaning.CleanTable(frame.table, Commodities)
    ensures r.Failure? <==> !({"rice", "sorghum", "beans", "millet", "yam"} <= frame.table.columns)
    ensures r.Success? ==> forall x :: x in r.value.rows ==>
      && x.market != "Market Average"
      && (|| Cell(x, "rice").Some? || Cell(x, "sorghum").Some? || Cell(x, "beans").Some?
          || Cell(x, "millet").Some? || Cell(x, "yam").Some?)
  {
    r := Cleaning.CleanCountryData(frame, Commodities);
    MissingIffNotIncluded(frame.table);
    if r.Success? {
      forall x | x in r.value.rows
        ensures || Cell(x, "rice").Some? || Cell(x, "sorghum").Some? || Cell(x, "beans").Some?
                || Cell(x, "millet").Some? || Cell(x, "yam").Some?
      {
        PricedHasListedPrice(x);
      }
    }
  }
}
