/** The Senegal cleaner, its market summary and its cross-country overlap
    list. */
module SenegalCleaner {
  import opened Results
  import opened Records
  import Cleaning
  import Sequences

  /** The commodity columns the Senegal cleaner selects and filters on. */
  const Commodities: seq<string> := ["maize", "millet", "rice", "sorghum"]

  /** A column is missing exactly when the listed columns are not all among
      the frame's columns. */
  lemma MissingIffNotIncluded(t: Table)
    ensures (exists i :: 0 <= i < |Commodities| && Commodities[i] !in t.columns) <==>
      !({"maize", "millet", "rice", "sorghum"} <= t.columns)
  {
    Cleaning.ListedColumnsPresent(t, Commodities, {"maize", "millet", "rice", "sorghum"});
  }

  /** A priced row has a price for one of the listed commodities. */
  lemma PricedHasListedPrice(x: Row)
    requires Cleaning.AnyPrice(Commodities, x)
    ensures || Cell(x, "maize").Some? || Cell(x, "millet").Some? || Cell(x, "rice").Some?
            || Cell(x, "sorghum").Some?
  {
    Cleaning.PricedRowHasListedPrice(Commodities, x);
  }

  /** Cleans a Senegal frame: stamps `year_month` on every row of the caller's
      frame, then returns the rows with a maize, millet, rice or sorghum price
      that are not the aggregate market. */
  method CleanSenegalData(frame: Frame) returns (r: Result<Table, Cleaning.CleanError>)
    modifies frame
    ensures frame.table == Cleaning.StampYearMonth(old(frame.table))
    ensures r == Cleaning.CleanTable(frame.table, Commodities)
    ensures r.Failure? <==> !({"maize", "millet", "rice", "sorghum"} <= frame.table.columns)
    ensures r.Success? ==> forall x :: x in r.value.rows ==>
      && x.market != "Market Average"
      && (|| Cell(x, "maize").Some? || Cell(x, "millet").Some? || Cell(x, "rice").Some?
          || Cell(x, "sorghum").Some?)
  {
    r := Cleaning.CleanCountryData(frame, Commodities);
    MissingIffNotIncluded(frame.table);
    if r.Success? {
      forall x | x in r.value.rows
        ensures || Cell(x, "maize").Some? || Cell(x, "millet").Some? || Cell(x, "rice").Some?
                || Cell(x, "sorghum").Some?
      {
        PricedHasListedPrice(x);
      }
    }
  }

  /** The count columns of the Senegal market summary. */
  function MarketSummary(t: Table): (r: Result<map<string, map<string, nat>>, Cleaning.CleanError>)
    ensures r.Failure? <==> !({"maize", "millet", "rice", "sorghum"} <= t.columns)
    ensures r.Success? ==> forall m :: m in r.value <==> exists i :: 0 <= i < |t.rows| && t.rows[i].market == m
    ensures r.Success? ==> forall m :: m in r.value ==>
      && r.value[m].Keys == set c | c in Commodities
      && forall c :: c in r.value[m] ==> r.value[m][c] == Cleaning.MarketCount(t.rows, m, c)
  {
    MissingIffNotIncluded(t);
    Cleaning.MarketSummary(t, Commodities)
  }

  /** The commodities the overlap check looks at, in the order it checks them:
      all four Senegal commodities. */
  const SharedCandidates: seq<string> := ["maize", "millet", "rice", "sorghum"]

  /** The text the overlap check reports for a shared commodity. */
  function SharedLabel(c: string): string
  {
    if c == "maize" then "maize (with Kenya)"
    else if c == "millet" then "millet (with Nigeria)"
    else if c == "rice" then "rice (with Nigeria)"
    else "sorghum (with Kenya & Nigeria)"
  }

  /** The reported texts of the commodities `cs`, in order. */
  function Labels(cs: seq<string>): seq<string>
  {
    seq(|cs|, i requires 0 <= i < |cs| => SharedLabel(cs[i]))
  }

  /** Reporting one more commodity appends its text. */
  lemma LabelsSnoc(cs: seq<string>, c: string)
    ensures Labels(cs + [c]) == Labels(cs) + [SharedLabel(c)]
  {
  }

  /** A label names a single candidate commodity. */
  lemma SharedLabelInjective(a: string, b: string)
    requires a in SharedCandidates && b in SharedCandidates
    requires SharedLabel(a) == SharedLabel(b)
    ensures a == b
  {
  }

  /** A candidate's label is in the list exactly when the candidate is
      available. */
  lemma LabelsOfAvailable(rows: seq<Row>, c: string)
    requires c in SharedCandidates
    ensures SharedLabel(c) in Labels(Cleaning.AvailableCommodities(rows, SharedCandidates)) <==> HasValue(rows, c)
  {
    var avail := Cleaning.AvailableCommodities(rows, SharedCandidates);
    if HasValue(rows, c) {
      Sequences.FilterKeeps(Cleaning.HasValueIn(rows), SharedCandidates, c);
      var k :| 0 <= k < |avail| && avail[k] == c;
      assert Labels(avail)[k] == SharedLabel(c);
    }
    if SharedLabel(c) in Labels(avail) {
      var k :| 0 <= k < |avail| && Labels(avail)[k] == SharedLabel(c);
      assert avail[k] in avail;
      SharedLabelInjective(avail[k], c);
    }
  }

  /** The cross-country overlap list of the cleaned Senegal rows: one entry per
      commodity whose column is not all NaN, in the order maize, millet, rice,
      sorghum. */
  method SharedCommodities(rows: seq<Row>) returns (shared: seq<string>)
    ensures shared == Labels(Cleaning.AvailableCommodities(rows, SharedCandidates))
    ensures forall c :: c in SharedCandidates ==> (SharedLabel(c) in shared <==> HasValue(rows, c))
  {
    shared := [];
    ghost var picked: seq<string> := [];
    Cleaning.AvailableSnoc(rows, [], "maize");
    assert [] + ["maize"] == ["maize"];
    if HasValue(rows, "maize") {
      LabelsSnoc(picked, "maize");
      shared := shared + ["maize (with Kenya)"];
      picked := picked + ["maize"];
    }
    assert picked == Cleaning.AvailableCommodities(rows, ["maize"]) && shared == Labels(picked);
    Cleaning.AvailableSnoc(rows, ["maize"], "millet");
    assert ["maize"] + ["millet"] == ["maize", "millet"];
    if HasValue(rows, "millet") {
      LabelsSnoc(picked, "millet");
      shared := shared + ["millet (with Nigeria)"];
      picked := picked + ["millet"];
    }
    assert picked == Cleaning.AvailableCommodities(rows, ["maize", "millet"]) && shared == Labels(picked);
    Cleaning.AvailableSnoc(rows, ["maize", "millet"], "rice");
    assert ["maize", "millet"] + ["rice"] == ["maize", "millet", "rice"];
    if HasValue(rows, "rice") {
      LabelsSnoc(picked, "rice");
      shared := shared + ["rice (with Nigeria)"];
      picked := picked + ["rice"];
    }
    assert picked == Cleaning.AvailableCommodities(rows, ["maize", "millet", "rice"]) && shared == Labels(picked);
    Cleaning.AvailableSnoc(rows, ["maize", "millet", "rice"], "sorghum");
    assert ["maize", "millet", "rice"] + ["sorghum"] == ["maize", "millet", "rice", "sorghum"];
    if HasValue(rows, "sorghum") {
      LabelsSnoc(picked, "sorghum");
      shared := shared + ["sorghum (with Kenya & Nigeria)"];
      picked := picked + ["sorghum"];
    }
    assert picked == Cleaning.AvailableCommodities(rows, ["maize", "millet", "rice", "sorghum"]) && shared == Labels(picked);
    forall c | c in SharedCandidates
      ensures SharedLabel(c) in shared <==> HasValue(rows, c)
    {
      LabelsOfAvailable(rows, c);
    }
  }
}
