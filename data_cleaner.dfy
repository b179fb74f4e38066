/** The Kenya cleaner and its market summary. */
module KenyaCleaner {
  import opened Results
  import opened Records
  import Cleaning

  /** The commodity columns the Kenya cleaner selects and filters on. */
  const Commodities: seq<string> := ["maize", "potatoes", "sorghum"]

  /** A column is missing exactly when the listed columns are not all among
      the frame's columns. */
  lemma MissingIffNotIncluded(t: Table)
    ensures (exists i :: 0 <= i < |Commodities| && Commodities[i] !in t.columns) <==>
      !({"maize", "potatoes", "sorghum"} <= t.columns)
  {
    Cleaning.ListedColumnsPresent(t, Commodities, {"maize", "potatoes", "sorghum"});
  }

  /** A priced row has a price for one of the listed commodities. */
  lemma PricedHasListedPrice(x: Row)
    requires Cleaning.AnyPrice(Commodities, x)
    ensures Cell(x, "maize").Some? || Cell(x, "potatoes").Some? || Cell(x, "sorghum").Some?
  {
    Cleaning.PricedRowHasListedPrice(Commodities, x);
  }

  /** Cleans a Kenya frame: stamps `year_month` on every row of the caller's
      frame, then returns the rows with a maize, potatoes or sorghum price that
      are not the aggregate market. */
  method CleanKenyaData(frame: Frame) returns (r: Result<Table, Cleaning.CleanError>)
    modifies frame
    ensures frame.table == Cleaning.StampYearMonth(old(frame.table))
    ensures r == Cleaning.CleanTable(frame.table, Commodities)
    ensures r.Failure? <==> !({"maize", "potatoes", "sorghum"} <= frame.table.columns)
    ensures r.Success? ==> forall x :: x in r.value.rows ==>
      && x.market != "Market Average"
      && (Cell(x, "maize").Some? || Cell(x, "potatoes").Some? || Cell(x, "sorghum").Some?)
  {
    r := Cleaning.CleanCountryData(frame, Commodities);
    MissingIffNotIncluded(frame.table);
    if r.Success? {
      forall x | x in r.value.rows
        ensures Cell(x, "maize").Some? || Cell(x, "potatoes").Some? || Cell(x, "sorghum").Some?
      {
        PricedHasListedPrice(x);
      }
    }
  }

  /** The count columns of the Kenya market summary. */
  function MarketSummary(t: Table): (r: Result<map<string, map<string, nat>>, Cleaning.CleanError>)
    ensures r.Failure? <==> !({"maize", "potatoes", "sorghum"} <= t.columns)
    ensures r.Success? ==> forall m :: m in r.value <==> exists i :: 0 <= i < |t.rows| && t.rows[i].market == m
    ensures r.Success? ==> forall m :: m in r.value ==>
      && r.value[m].Keys == set c | c in Commodities
      && forall c :: c in r.value[m] ==> r.value[m][c] == Cleaning.MarketCount(t.rows, m, c)
  {
    MissingIffNotIncluded(t);
    Cleaning.MarketSummary(t, Commodities)
  }
}
