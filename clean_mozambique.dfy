/** The Mozambique cleaner, its market summary and its cross-country overlap
    list. */
module MozambiqueCleaner {
  import opened Results
  import opened Records
  import Cleaning

  /** The commodity columns the Mozambique cleaner selects and filters on. */
  const Commodities: seq<string> :=
    ["cowpeas", "groundnuts", "maize", "maize_meal", "oil", "rice", "sugar", "wheat_flour"]

  /** A column is missing exactly when the listed columns are not all among
      the frame's columns. */
  lemma MissingIffNotIncluded(t: Table)
    ensures (exists i :: 0 <= i < |Commodities| && Commodities[i] !in t.columns) <==>
      !({"cowpeas", "groundnuts", "maize", "maize_meal", "oil", "rice", "sugar", "wheat_flour"} <= t.columns)
  {
    Cleaning.ListedColumnsPresent(t, Commodities, {"cowpeas", "groundnuts", "maize", "maize_meal", "oil", "rice", "sugar", "wheat_flour"});
  }

  /** A priced row has a price for one of the listed commodities. */
  lemma PricedHasListedPrice(x: Row)
    requires Cleaning.AnyPrice(Commodities, x)
    ensures || Cell(x, "cowpeas").Some? || Cell(x, "groundnuts").Some? || Cell(x, "maize").Some?
            || Cell(x, "maize_meal").Some? || Cell(x, "oil").Some? || Cell(x, "rice").Some?
            || Cell(x, "sugar").Some? || Cell(x, "wheat_flour").Some?
  {
    Cleaning.PricedRowHasListedPrice(Commodities, x);
  }

  /** Cleans a Mozambique frame: stamps `year_month` on every row of the
      caller's frame, then returns the rows with a price for one of the eight
      Mozambique commodities that are not the aggregate market. */
  method CleanMozambiqueData(frame: Frame) returns (r: Result<Table, Cleaning.CleanError>)
    modifies frame
    ensures frame.table == Cleaning.StampYearMonth(old(frame.table))
    ensures r == Cleaning.CleanTable(frame.table, Commodities)
    ensures r.Failure? <==> !({"cowpeas", "groundnuts", "maize", "maize_meal", "oil", "rice", "sugar", "wheat_flour"} <= frame.table.columns)
    ensures r.Success? ==> forall x :: x in r.value.rows ==>
      && x.market != "Market Average"
      && (|| Cell(x, "cowpeas").Some? || Cell(x, "groundnuts").Some? || Cell(x, "maize").Some?
          || Cell(x, "maize_meal").Some? || Cell(x, "oil").Some? || Cell(x, "rice").Some?
          || Cell(x, "sugar").Some? || Cell(x, "wheat_flour").Some?)
  {
    r := Cleaning.CleanCountryData(frame, Commodities);
    MissingIffNotIncluded(frame.table);
    if r.Success? {
      forall x | x in r.value.rows
        ensures || Cell(x, "cowpeas").Some? || Cell(x, "groundnuts").Some? || Cell(x, "maize").Some?
                || Cell(x, "maize_meal").Some? || Cell(x, "oil").Some? || Cell(x, "rice").Some?
                || Cell(x, "sugar").Some? || Cell(x, "wheat_flour").Some?
      {
        PricedHasListedPrice(x);
      }
    }
  }

  /** The count columns of the Mozambique market summary. */
  function MarketSummary(t: Table): (r: Result<map<string, map<string, nat>>, Cleaning.CleanError>)
    ensures r.Failure? <==> !({"cowpeas", "groundnuts", "maize", "maize_meal", "oil", "rice", "sugar", "wheat_flour"} <= t.columns)
    ensures r.Success? ==> forall m :: m in r.value <==> exists i :: 0 <= i < |t.rows| && t.rows[i].market == m
    ensures r.Success? ==> forall m :: m in r.value ==>
      && r.value[m].Keys == set c | c in Commodities
      && forall c :: c in r.value[m] ==> r.value[m][c] == Cleaning.MarketCount(t.rows, m, c)
  {
    MissingIffNotIncluded(t);
    Cleaning.MarketSummary(t, Commodities)
  }

  /** The commodities the overlap check looks at, in the order it checks them. */
  const SharedCandidates: seq<string> := ["maize", "rice"]

  /** The text the overlap check reports for a shared commodity. */
  function SharedLabel(c: string): string
  {
    if c == "maize" then "maize (with Kenya)" else "rice (with Nigeria)"
  }

  /** The reported texts of the commodities `cs`, in order. */
  function Labels(cs: seq<string>): seq<string>
  {
    seq(|cs|, i requires 0 <= i < |cs| => SharedLabel(cs[i]))
  }

  /** Reporting one more commodity appends its text. */
  lemma LabelsSnoc(cs: seq<string>, c: string)
    ensures Labels(cs + [c]) == Labels(cs) + [SharedLabel(c)]
  {
  }

  /** The cross-country overlap list of the cleaned Mozambique rows: maize and
      rice, each reported when its column is not all NaN, maize first. */
  method SharedCommodities(rows: seq<Row>) returns (shared: seq<string>)
    ensures shared == Labels(Cleaning.AvailableCommodities(rows, SharedCandidates))
    ensures "maize (with Kenya)" in shared <==> HasValue(rows, "maize")
    ensures "rice (with Nigeria)" in shared <==> HasValue(rows, "rice")
    ensures forall x :: x in shared ==> x in {"maize (with Kenya)", "rice (with Nigeria)"}
    ensures |shared| == 2 ==> shared == ["maize (with Kenya)", "rice (with Nigeria)"]
  {
    shared := [];
    ghost var picked: seq<string> := [];
    Cleaning.AvailableSnoc(rows, [], "maize");
    assert [] + ["maize"] == ["maize"];
    if HasValue(rows, "maize") {
      LabelsSnoc(picked, "maize");
      shared := shared + ["maize (with Kenya)"];
      picked := picked + ["maize"];
    }
    assert picked == Cleaning.AvailableCommodities(rows, ["maize"]) && shared == Labels(picked);
    assert "maize (with Kenya)" in shared <==> HasValue(rows, "maize");
    Cleaning.AvailableSnoc(rows, ["maize"], "rice");
    assert ["maize"] + ["rice"] == ["maize", "rice"];
    if HasValue(rows, "rice") {
      LabelsSnoc(picked, "rice");
      shared := shared + ["rice (with Nigeria)"];
      picked := picked + ["rice"];
    }
    assert picked == Cleaning.AvailableCommodities(rows, ["maize", "rice"]) && shared == Labels(picked);
    assert "maize (with Kenya)" in shared <==> HasValue(rows, "maize");
    assert "rice (with Nigeria)" in shared <==> HasValue(rows, "rice");
  }
}
