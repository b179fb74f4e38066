/** The Somalia cleaner, its market summary and its cross-country overlap
    list. */
module SomaliaCleaner {
  import opened Results
  import opened Records
  import Cleaning
  import Sequences

  /** The commodity columns the Somalia cleaner selects and filters on. */
  const Commodities: seq<string> := ["maize", "oil", "rice", "sorghum"]

  /** A column is missing exactly when the listed columns are not all among
      the frame's columns. */
  lemma MissingIffNotIncluded(t: Table)
    ensures (exists i :: 0 <= i < |Commodities| && Commodities[i] !in t.columns) <==>
      !({"maize", "oil", "rice", "sorghum"} <= t.columns)
  {
    Cleaning.ListedColumnsPresent(t, Commodities, {"maize", "oil", "rice", "sorghum"});
  }

  /** A priced row has a price for one of the listed commodities. */
  lemma PricedHasListedPrice(x: Row)
    requires Cleaning.AnyPrice(Commodities, x)
    ensures || Cell(x, "maize").Some? || Cell(x, "oil").Some? || Cell(x, "rice").Some?
            || Cell(x, "sorghum").Some?
  {
    Cleaning.PricedRowHasListedPrice(Commodities, x);
  }

  /** Cleans a Somalia frame: stamps `year_month` on every row of the caller's
      frame, then returns the rows with a maize, oil, rice or sorghum price that
      are not the aggregate market. */
  method CleanSomaliaData(frame: Frame) returns (r: Result<Table, Cleaning.CleanError>)
    modifies frame
    ensures frame.table == Cleaning.StampYearMonth(old(frame.table))
    ensures r == Cleaning.CleanTable(frame.table, Commodities)
    ensures r.Failure? <==> !({"maize", "oil", "rice", "sorghum"} <= frame.table.columns)
    ensures r.Success? ==> forall x :: x in r.value.rows ==>
      && x.market != "Market Average"
      && (|| Cell(x, "maize").Some? || Cell(x, "oil").Some? || Cell(x, "rice").Some?
          || Cell(x, "sorghum").Some?)
  {
    r := Cleaning.CleanCountryData(frame, Commodities);
    MissingIffNotIncluded(frame.table);
    if r.Success? {
      forall x | x in r.value.rows
        ensures || Cell(x, "maize").Some? || Cell(x, "oil").Some? || Cell(x, "rice").Some?
                || Cell(x, "sorghum").Some?
      {
        PricedHasListedPrice(x);
      }
    }
  }

  /** The count columns of the Somalia market summary. */
  function MarketSummary(t: Table): (r: Result<map<string, map<string, nat>>, Cleaning.CleanError>)
    ensures r.Failure? <==> !({"maize", "oil", "rice", "sorghum"} <= t.columns)
    ensures r.Success? ==> forall m :: m in r.value <==> exists i :: 0 <= i < |t.rows| && t.rows[i].market == m
    ensures r.Success? ==> forall m :: m in r.value ==>
      && r.value[m].Keys == set c | c in Commodities
      && forall c :: c in r.value[m] ==> r.value[m][c] == Cleaning.MarketCount(t.rows, m, c)
  {
    MissingIffNotIncluded(t);
    Cleaning.MarketSummary(t, Commodities)
  }

  /** The commodities the overlap check looks at, in the order it checks them;
      oil is not among them. */
  const SharedCandidates: seq<string> := ["maize", "rice", "sorghum"]

  /** The text the overlap check reports for a shared commodity. */
  function SharedLabel(c: string): string
  {
    if c == "maize" then "maize (with Kenya)"
    else if c == "rice" then "rice (with Nigeria)"
    else "sorghum (with Kenya & Nigeria)"
  }

  /** The reported texts of the commodities `cs`, in order. */
  function Labels(cs: seq<string>): seq<string>
  {
    seq(|cs|, i requires 0 <= i < |cs| => SharedLabel(cs[i]))
  }

  /** Reporting one more commodity appends its text. */
  lemma LabelsSnoc(cs: seq<string>, c: string)
    ensures Labels(cs + [c]) == Labels(cs) + [SharedLabel(c)]
  {
  }

  /** A label names a single candidate commodity. */
  lemma SharedLabelInjective(a: string, b: string)
    requires a in SharedCandidates && b in SharedCandidates
    requires SharedLabel(a) == SharedLabel(b)
    ensures a == b
  {
  }

  /** A candidate's label is in the list exactly when the candidate is
      available. */
  lemma LabelsOfAvailable(rows: seq<Row>, c: string)
    requires c in SharedCandidates
    ensures SharedLabel(c) in Labels(Cleaning.AvailableCommodities(rows, SharedCandidates)) <==> HasValue(rows, c)
  {
    var avail := Cleaning.AvailableCommodities(rows, SharedCandidates);
    if HasValue(rows, c) {
      Sequences.FilterKeeps(Cleaning.HasValueIn(rows), SharedCandidates, c);
      var k :| 0 <= k < |avail| && avail[k] == c;
      assert Labels(avail)[k] == SharedLabel(c);
    }
    if SharedLabel(c) in Labels(avail) {
      var k :| 0 <= k < |avail| && Labels(avail)[k] == SharedLabel(c);
      assert avail[k] in avail;
      SharedLabelInjective(avail[k], c);
    }
  }

  /** The cross-country overlap list of the cleaned Somalia rows: maize, rice
      and sorghum, each reported when its column is not all NaN, in that order;
      oil is never reported. */
  method SharedCommodities(rows: seq<Row>) returns (shared: seq<string>)
    ensures shared == Labels(Cleaning.AvailableCommodities(rows, SharedCandidates))
    ensures forall c :: c in SharedCandidates ==> (SharedLabel(c) in shared <==> HasValue(rows, c))
    ensures forall x :: x in shared ==>
      x in {"maize (with Kenya)", "rice (with Nigeria)", "sorghum (with Kenya & Nigeria)"}
  {
    shared := [];
    ghost var picked: seq<string> := [];
    Cleaning.AvailableSnoc(rows, [], "maize");
    assert [] + ["maize"] == ["maize"];
    if HasValue(rows, "maize") {
      LabelsSnoc(picked, "maize");
      shared := shared + ["maize (with Kenya)"];
      picked := picked + ["maize"];
    }
    assert picked == Cleaning.AvailableCommodities(rows, ["maize"]) && shared == Labels(picked);
    Cleaning.AvailableSnoc(rows, ["maize"], "rice");
    assert ["maize"] + ["rice"] == ["maize", "rice"];
    if HasValue(rows, "rice") {
      LabelsSnoc(picked, "rice");
      shared := shared + ["rice (with Nigeria)"];
      picked := picked + ["rice"];
    }
    assert picked == Cleaning.AvailableCommodities(rows, ["maize", "rice"]) && shared == Labels(picked);
    Cleaning.AvailableSnoc(rows, ["maize", "rice"], "sorghum");
    assert ["maize", "rice"] + ["sorghum"] == ["maize", "rice", "sorghum"];
    if HasValue(rows, "sorghum") {
      LabelsSnoc(picked, "sorghum");
      shared := shared + ["sorghum (with Kenya & Nigeria)"];
      picked := picked + ["sorghum"];
    }
    assert picked == Cleaning.AvailableCommodities(rows, ["maize", "rice", "sorghum"]) && shared == Labels(picked);
    forall c | c in SharedCandidates
      ensures SharedLabel(c) in shared <==> HasValue(rows, c)
    {
      LabelsOfAvailable(rows, c);
    }
  }
}
