/** The six-country combination: the loaders that attach each country's
    metadata, the concatenated table, the shared-commodity map and the
    cross-country sorghum analysis. */
module MultiCountry {
  import opened Results
  import opened Records
  import opened Sequences
  import Cleaning

  datatype Country = Kenya | Nigeria | Mali | Mozambique | Senegal | Somalia

  /** The order in which the countries are loaded and concatenated. */
  const CountryOrder: seq<Country> := [Kenya, Nigeria, Mali, Mozambique, Senegal, Somalia]

  /** Where country `c` stands in the concatenation order. */
  function Position(c: Country): (k: nat)
    ensures k < |CountryOrder| && CountryOrder[k] == c
  {
    match c
    case Kenya => 0
    case Nigeria => 1
    case Mali => 2
    case Mozambique => 3
    case Senegal => 4
    case Somalia => 5
  }

  /** The metadata each loader writes: name, ISO code, region, sub-region and
      population in millions. */
  function Profile(c: Country): CountryProfile
  {
    match c
    case Kenya => CountryProfile("Kenya", "KEN", "East Africa", "East Africa", 54)
    case Nigeria => CountryProfile("Nigeria", "NGA", "West Africa", "West Africa", 218)
    case Mali => CountryProfile("Mali", "MLI", "Sahel", "West Africa", 22)
    case Mozambique => CountryProfile("Mozambique", "MOZ", "Southern Africa", "SADC", 32)
    case Senegal => CountryProfile("Senegal", "SEN", "West Africa", "Coastal West Africa", 17)
    case Somalia => CountryProfile("Somalia", "SOM", "Horn of Africa", "East Africa", 17)
  }

  /** Different countries are written with different names and codes, so the
      `country` column tells the loaded tables apart. */
  lemma ProfilesDistinct(a: Country, b: Country)
    requires a != b
    ensures Profile(a).country != Profile(b).country
    ensures Profile(a).code != Profile(b).code
  {
  }

  /** A row with its metadata columns removed. */
  function Bare(r: Row): Row
  {
    r.(profile := None)
  }

  /** A loaded country table (`load_*_data`): the processed file's columns and
      rows, unchanged except that every row carries the country's metadata. */
  function Load(c: Country, t: Table): (r: Table)
    ensures r.columns == t.columns
    ensures |r.rows| == |t.rows|
    ensures forall i :: 0 <= i < |r.rows| ==> r.rows[i].profile == Some(Profile(c))
    ensures forall i :: 0 <= i < |r.rows| ==> Bare(r.rows[i]) == Bare(t.rows[i])
  {
    Table(t.columns, seq(|t.rows|, i requires 0 <= i < |t.rows| => t.rows[i].(profile := Some(Profile(c)))))
  }

  /** The `country` column holds `name`. */
  function InCountry(name: string): Row -> bool
  {
    (r: Row) => r.profile.Some? && r.profile.value.country == name
  }

  /** The rows of one country (`df[df['country'] == name]`). */
  function RowsOf(rows: seq<Row>, name: string): seq<Row>
  {
    Filter(InCountry(name), rows)
  }

  /** A loaded table is entirely its own country's and has nothing of any
      other country. */
  lemma LoadedRowsOf(c: Country, t: Table, other: Country)
    ensures RowsOf(Load(c, t).rows, Profile(c).country) == Load(c, t).rows
    ensures other != c ==> RowsOf(Load(c, t).rows, Profile(other).country) == []
  {
    var rows := Load(c, t).rows;
    FilterAll(InCountry(Profile(c).country), rows);
    if other != c {
      ProfilesDistinct(other, c);
      FilterNone(InCountry(Profile(other).country), rows);
    }
  }

  /** Number of rows of all of `ts`. */
  function TotalRows(ts: seq<Table>): nat
  {
    if ts == [] then 0 else |ts[0].rows| + TotalRows(ts[1..])
  }

  /** Number of rows of the first `k` tables of `ts`: where block `k` starts in
      their concatenation. */
  function RowsBefore(ts: seq<Table>, k: nat): nat
    requires k <= |ts|
  {
    if k == 0 then 0 else |ts[0].rows| + RowsBefore(ts[1..], k - 1)
  }

  /** `pd.concat(ts, ignore_index=True)`: the columns of any of the tables, and
      their rows one table after another, renumbered from 0. */
  function Concat(ts: seq<Table>): (r: Table)
    ensures |r.rows| == TotalRows(ts)
  {
    if ts == [] then Table({}, [])
    else
      var rest := Concat(ts[1..]);
      Table(ts[0].columns + rest.columns, ts[0].rows + rest.rows)
  }

  /** The concatenation has the columns of any of the tables and the rows of
      all of them, and nothing else. */
  lemma {:induction false} ConcatContents(ts: seq<Table>)
    ensures forall c :: c in Concat(ts).columns <==> exists k :: 0 <= k < |ts| && c in ts[k].columns
    ensures forall x :: x in Concat(ts).rows <==> exists k :: 0 <= k < |ts| && x in ts[k].rows
  {
    if ts != [] {
      ConcatContents(ts[1..]);
      assert forall k :: 1 <= k < |ts| ==> ts[k] == ts[1..][k - 1];
    }
  }

  /** Table `k` appears in the concatenation as one contiguous block, starting
      after the rows of the tables before it, in its own order. */
  lemma {:induction false} ConcatBlock(ts: seq<Table>, k: nat)
    requires k < |ts|
    ensures RowsBefore(ts, k) + |ts[k].rows| <= |Concat(ts).rows|
    ensures Concat(ts).rows[RowsBefore(ts, k)..RowsBefore(ts, k) + |ts[k].rows|] == ts[k].rows
  {
    var all := Concat(ts).rows;
    assert all == ts[0].rows + Concat(ts[1..]).rows;
    if k > 0 {
      ConcatBlock(ts[1..], k - 1);
      var start := RowsBefore(ts[1..], k - 1);
      assert all[RowsBefore(ts, k)..RowsBefore(ts, k) + |ts[k].rows|]
          == Concat(ts[1..]).rows[start..start + |ts[k].rows|];
    }
  }

  /** When `p` holds on every row of table `m` and on no row of any other table,
      it selects exactly table `m` from the concatenation. */
  lemma {:induction false} FilterConcatSingle(p: Row -> bool, ts: seq<Table>, m: nat)
    requires m < |ts|
    requires forall x :: x in ts[m].rows ==> p(x)
    requires forall k, x :: 0 <= k < |ts| && k != m && x in ts[k].rows ==> !p(x)
    ensures Filter(p, Concat(ts).rows) == ts[m].rows
  {
    var rest := Concat(ts[1..]).rows;
    assert Concat(ts).rows == ts[0].rows + rest;
    FilterAppend(p, ts[0].rows, rest);
    if m == 0 {
      assert Filter(p, rest) == [] by {
        ConcatContents(ts[1..]);
        forall x | x in rest ensures !p(x) {
          var k :| 0 <= k < |ts[1..]| && x in ts[1..][k].rows;
          assert x in ts[k + 1].rows;
        }
        FilterNone(p, rest);
      }
      FilterAll(p, ts[0].rows);
    } else {
      assert Filter(p, ts[0].rows) == [] by {
        FilterNone(p, ts[0].rows);
      }
      assert Filter(p, rest) == ts[m].rows by {
        forall k, x | 0 <= k < |ts[1..]| && k != m - 1 && x in ts[1..][k].rows ensures !p(x) {
          assert x in ts[k + 1].rows;
        }
        FilterConcatSingle(p, ts[1..], m - 1);
      }
    }
  }

  /** The six processed files, as read. */
  datatype Sources = Sources(
    kenya: Table,
    nigeria: Table,
    mali: Table,
    mozambique: Table,
    senegal: Table,
    somalia: Table)
  {
    function Of(c: Country): Table
    {
      match c
      case Kenya => kenya
      case Nigeria => nigeria
      case Mali => mali
      case Mozambique => mozambique
      case Senegal => senegal
      case Somalia => somalia
    }
  }

  /** The six loaded tables, in concatenation order. */
  function Loaded(src: Sources): (r: seq<Table>)
    ensures |r| == |CountryOrder|
    ensures forall k :: 0 <= k < |r| ==> r[k] == Load(CountryOrder[k], src.Of(CountryOrder[k]))
  {
    [Load(Kenya, src.kenya), Load(Nigeria, src.nigeria), Load(Mali, src.mali),
     Load(Mozambique, src.mozambique), Load(Senegal, src.senegal), Load(Somalia, src.somalia)]
  }

  /** The loaded tables together have as many rows as the six files. */
  lemma {:induction false} LoadedTotalRows(src: Sources)
    ensures TotalRows(Loaded(src)) == |src.kenya.rows| + |src.nigeria.rows| + |src.mali.rows|
                                   + |src.mozambique.rows| + |src.senegal.rows| + |src.somalia.rows|
  {
    var ts := Loaded(src);
    assert TotalRows(ts) == |ts[0].rows| + TotalRows(ts[1..]);
    assert TotalRows(ts[1..]) == |ts[1].rows| + TotalRows(ts[2..]);
    assert TotalRows(ts[2..]) == |ts[2].rows| + TotalRows(ts[3..]);
    assert TotalRows(ts[3..]) == |ts[3].rows| + TotalRows(ts[4..]);
    assert TotalRows(ts[4..]) == |ts[4].rows| + TotalRows(ts[5..]);
    assert TotalRows(ts[5..]) == |ts[5].rows| + TotalRows(ts[6..]);
  }

  /** Every row of the `k`-th loaded table carries the `k`-th country's
      metadata. */
  lemma LoadedRowProfile(src: Sources, k: nat, x: Row)
    requires k < |CountryOrder| && x in Loaded(src)[k].rows
    ensures x.profile == Some(Profile(CountryOrder[k]))
  {
    var rows := Loaded(src)[k].rows;
    var i :| 0 <= i < |rows| && rows[i] == x;
  }

  /** A row of another country's loaded table is not in country `c`. */
  lemma LoadedRowElsewhere(src: Sources, c: Country, k: nat, x: Row)
    requires k < |CountryOrder| && k != Position(c) && x in Loaded(src)[k].rows
    ensures !InCountry(Profile(c).country)(x)
  {
    LoadedRowProfile(src, k, x);
    assert Position(CountryOrder[k]) == k;
    ProfilesDistinct(CountryOrder[k], c);
  }

  /** Every row of the loaded tables carries the metadata of one of the
      countries. */
  lemma LoadedRowsProfiled(src: Sources, x: Row)
    requires x in Concat(Loaded(src)).rows
    ensures exists c :: x.profile == Some(Profile(c))
  {
    var ts := Loaded(src);
    ConcatContents(ts);
    var k :| 0 <= k < |ts| && x in ts[k].rows;
    LoadedRowProfile(src, k, x);
  }

  /** `process_multi_country_data`: the six loaded tables concatenated in the
      order Kenya, Nigeria, Mali, Mozambique, Senegal, Somalia. */
  function ProcessMultiCountry(src: Sources): (r: Table)
    ensures |r.rows| == |src.kenya.rows| + |src.nigeria.rows| + |src.mali.rows|
                      + |src.mozambique.rows| + |src.senegal.rows| + |src.somalia.rows|
  {
    LoadedTotalRows(src);
    Concat(Loaded(src))
  }

  /** The combined table has the columns of any country's file, and every row
      carries the metadata of one of the countries. */
  lemma CombinedContents(src: Sources)
    ensures forall c :: c in ProcessMultiCountry(src).columns <==>
      exists k :: 0 <= k < |CountryOrder| && c in src.Of(CountryOrder[k]).columns
    ensures forall x :: x in ProcessMultiCountry(src).rows ==> exists c :: x.profile == Some(Profile(c))
  {
    ConcatContents(Loaded(src));
    forall x | x in ProcessMultiCountry(src).rows ensures exists c :: x.profile == Some(Profile(c)) {
      LoadedRowsProfiled(src, x);
    }
  }

  /** Block `k` of the combined table is the `k`-th country's loaded table. */
  lemma CombinedBlock(src: Sources, k: nat)
    requires k < |CountryOrder|
    ensures var start := RowsBefore(Loaded(src), k);
      var block := Load(CountryOrder[k], src.Of(CountryOrder[k])).rows;
      && start + |block| <= |ProcessMultiCountry(src).rows|
      && ProcessMultiCountry(src).rows[start..start + |block|] == block
  {
    ConcatBlock(Loaded(src), k);
  }

  /** Selecting one country from the combined table gives back exactly that
      country's loaded table: nothing lost, nothing from elsewhere, same order. */
  lemma {:induction false} CountryRowsRecovered(src: Sources, c: Country)
    ensures RowsOf(ProcessMultiCountry(src).rows, Profile(c).country) == Load(c, src.Of(c)).rows
  {
    var ts := Loaded(src);
    var m := Position(c);
    var p := InCountry(Profile(c).country);
    forall x | x in ts[m].rows ensures p(x) {
      LoadedRowProfile(src, m, x);
    }
    forall k, x | 0 <= k < |ts| && k != m && x in ts[k].rows ensures !p(x) {
      LoadedRowElsewhere(src, c, k, x);
    }
    FilterConcatSingle(p, ts, m);
  }

  /** `df['population_millions'].sum()`: the population column added up over
      every row; a row without the column counts as NaN and is skipped. */
  function PopulationColumnSum(rows: seq<Row>): nat
  {
    if rows == [] then 0
    else
      var first := if rows[0].profile.Some? then rows[0].profile.value.populationMillions else 0;
      first + PopulationColumnSum(rows[1..])
  }

  lemma {:induction false} PopulationSumAppend(a: seq<Row>, b: seq<Row>)
    ensures PopulationColumnSum(a + b) == PopulationColumnSum(a) + PopulationColumnSum(b)
  {
    if a == [] {
      assert a + b == b;
    } else {
      PopulationSumAppend(a[1..], b);
      assert (a + b)[0] == a[0] && (a + b)[1..] == a[1..] + b;
    }
  }

  /** Rows that all carry the same metadata add up to that population once per
      row. */
  lemma {:induction false} PopulationSumConstant(rows: seq<Row>, p: CountryProfile)
    requires forall x :: x in rows ==> x.profile == Some(p)
    ensures PopulationColumnSum(rows) == |rows| * p.populationMillions
  {
    if rows != [] {
      assert rows[0] in rows;
      PopulationSumConstant(rows[1..], p);
    }
  }

  /** The combined rows are the six loaded tables one after another. */
  lemma CombinedRowsAreBlocks(src: Sources)
    ensures ProcessMultiCountry(src).rows ==
      Load(Kenya, src.kenya).rows + (Load(Nigeria, src.nigeria).rows + (Load(Mali, src.mali).rows
      + (Load(Mozambique, src.mozambique).rows + (Load(Senegal, src.senegal).rows + Load(Somalia, src.somalia).rows))))
  {
    var ts := Loaded(src);
    assert Concat(ts).rows == ts[0].rows + Concat(ts[1..]).rows;
    assert Concat(ts[1..]).rows == ts[1].rows + Concat(ts[2..]).rows;
    assert Concat(ts[2..]).rows == ts[2].rows + Concat(ts[3..]).rows;
    assert Concat(ts[3..]).rows == ts[3].rows + Concat(ts[4..]).rows;
    assert Concat(ts[4..]).rows == ts[4].rows + Concat(ts[5..]).rows;
    assert Concat(ts[5..]).rows == ts[5].rows + Concat(ts[6..]).rows;
    assert ts[6..] == [];
  }

  /** A loaded table adds its country's population once per row. */
  lemma LoadedPopulation(c: Country, t: Table)
    ensures PopulationColumnSum(Load(c, t).rows) == |t.rows| * Profile(c).populationMillions
  {
    var rows := Load(c, t).rows;
    forall x | x in rows ensures x.profile == Some(Profile(c)) {
      var i :| 0 <= i < |rows| && rows[i] == x;
    }
    PopulationSumConstant(rows, Profile(c));
  }

  /** The population total printed for the combined table counts each
      country's population once for every one of its rows. */
  lemma PopulationSumOfCombined(src: Sources)
    ensures PopulationColumnSum(ProcessMultiCountry(src).rows) ==
      |src.kenya.rows| * 54 + |src.nigeria.rows| * 218 + |src.mali.rows| * 22
      + |src.mozambique.rows| * 32 + |src.senegal.rows| * 17 + |src.somalia.rows| * 17
  {
    var k, n, m := Load(Kenya, src.kenya).rows, Load(Nigeria, src.nigeria).rows, Load(Mali, src.mali).rows;
    var z, e, o := Load(Mozambique, src.mozambique).rows, Load(Senegal, src.senegal).rows, Load(Somalia, src.somalia).rows;
    CombinedRowsAreBlocks(src);
    PopulationSumOfSix(k, n, m, z, e, o);
    assert PopulationColumnSum(k) == |src.kenya.rows| * 54 by { LoadedPopulation(Kenya, src.kenya); }
    assert PopulationColumnSum(n) == |src.nigeria.rows| * 218 by { LoadedPopulation(Nigeria, src.nigeria); }
    assert PopulationColumnSum(m) == |src.mali.rows| * 22 by { LoadedPopulation(Mali, src.mali); }
    assert PopulationColumnSum(z) == |src.mozambique.rows| * 32 by { LoadedPopulation(Mozambique, src.mozambique); }
    assert PopulationColumnSum(e) == |src.senegal.rows| * 17 by { LoadedPopulation(Senegal, src.senegal); }
    assert PopulationColumnSum(o) == |src.somalia.rows| * 17 by { LoadedPopulation(Somalia, src.somalia); }
  }

  /** The population column of six blocks is the sum of theirs. */
  lemma PopulationSumOfSix(k: seq<Row>, n: seq<Row>, m: seq<Row>, z: seq<Row>, e: seq<Row>, o: seq<Row>)
    ensures PopulationColumnSum(k + (n + (m + (z + (e + o))))) ==
      PopulationColumnSum(k) + PopulationColumnSum(n) + PopulationColumnSum(m)
      + PopulationColumnSum(z) + PopulationColumnSum(e) + PopulationColumnSum(o)
  {
    PopulationSumAppend(e, o);
    PopulationSumAppend(z, e + o);
    PopulationSumAppend(m, z + (e + o));
    PopulationSumAppend(n, m + (z + (e + o)));
    PopulationSumAppend(k, n + (m + (z + (e + o))));
  }

  /** The population of the countries in `cs` that have at least one row. */
  function PopulationOf(src: Sources, cs: seq<Country>): nat
  {
    if cs == [] then 0
    else
      var first := if src.Of(cs[0]).rows != [] then Profile(cs[0]).populationMillions else 0;
      first + PopulationOf(src, cs[1..])
  }

  /** No country has rows exactly when none in the concatenation order has. */
  lemma NoCountryHasRows(src: Sources)
    ensures (forall i :: 0 <= i < |CountryOrder| ==> src.Of(CountryOrder[i]).rows == []) <==>
      forall c :: src.Of(c).rows == []
  {
    if forall i :: 0 <= i < |CountryOrder| ==> src.Of(CountryOrder[i]).rows == [] {
      forall c ensures src.Of(c).rows == [] {
        var k := Position(c);
        assert src.Of(CountryOrder[k]).rows == [];
      }
    }
  }

  /** The population the combined table covers: each country with data counted
      once, however many rows it has. Nobody is covered exactly when no country
      has data. */
  function CoveredPopulation(src: Sources): (r: nat)
    ensures r == 0 <==> forall c :: src.Of(c).rows == []
  {
    PopulationOfZero(src, CountryOrder);
    NoCountryHasRows(src);
    PopulationOf(src, CountryOrder)
  }

  /** With data for all six countries the covered population is 360 million. */
  lemma CoveredPopulationOfAll(src: Sources)
    requires forall c :: src.Of(c).rows != []
    ensures CoveredPopulation(src) == 360
  {
    var cs := CountryOrder;
    assert src.Of(Kenya).rows != [] && src.Of(Nigeria).rows != [] && src.Of(Mali).rows != [];
    assert src.Of(Mozambique).rows != [] && src.Of(Senegal).rows != [] && src.Of(Somalia).rows != [];
    assert PopulationOf(src, cs[5..]) == 17 by {
      assert cs[5..][1..] == [];
    }
    assert PopulationOf(src, cs[4..]) == 34 by {
      assert cs[4..][1..] == cs[5..];
    }
    assert PopulationOf(src, cs[3..]) == 66 by {
      assert cs[3..][1..] == cs[4..];
    }
    assert PopulationOf(src, cs[2..]) == 88 by {
      assert cs[2..][1..] == cs[3..];
    }
    assert PopulationOf(src, cs[1..]) == 306 by {
      assert cs[1..][1..] == cs[2..];
    }
  }

  /** The covered population depends only on which countries have data, not on
      how many rows they have. */
  lemma {:induction false} CoveredPopulationIgnoresRowCounts(src: Sources, other: Sources, cs: seq<Country>)
    requires forall c :: (src.Of(c).rows == []) == (other.Of(c).rows == [])
    ensures PopulationOf(src, cs) == PopulationOf(other, cs)
  {
    if cs != [] {
      CoveredPopulationIgnoresRowCounts(src, other, cs[1..]);
    }
  }

  /** The countries `cs` add nothing to the covered population exactly when
      none of them has rows. */
  lemma {:induction false} PopulationOfZero(src: Sources, cs: seq<Country>)
    ensures PopulationOf(src, cs) == 0 <==> forall i :: 0 <= i < |cs| ==> src.Of(cs[i]).rows == []
  {
    if cs != [] {
      PopulationOfZero(src, cs[1..]);
      assert forall i :: 1 <= i < |cs| ==> cs[i] == cs[1..][i - 1];
    }
  }

  /** Two Kenya rows and nothing else: the printed total is 108 million, twice
      Kenya's population, while the covered population is 54 million. */
  lemma PopulationSumCountsEveryRow()
    ensures var r := Row("Nairobi", Date(2024, 1, 15), "KES", None, map["maize" := Some(50)], None);
      var src := Sources(Table({"maize"}, [r, r]), Table({}, []), Table({}, []),
                         Table({}, []), Table({}, []), Table({}, []));
      PopulationColumnSum(ProcessMultiCountry(src).rows) == 108 && CoveredPopulation(src) == 54
  {
    var r := Row("Nairobi", Date(2024, 1, 15), "KES", None, map["maize" := Some(50)], None);
    var src := Sources(Table({"maize"}, [r, r]), Table({}, []), Table({}, []),
                       Table({}, []), Table({}, []), Table({}, []));
    assert PopulationColumnSum(ProcessMultiCountry(src).rows) == 108 by {
      PopulationSumOfCombined(src);
    }
    var cs := CountryOrder;
    assert PopulationOf(src, cs[1..]) == 0 by {
      PopulationOfZero(src, cs[1..]);
    }
  }

  /** The `country` column of the rows that have one. */
  function CountryNames(rows: seq<Row>): (r: seq<string>)
    ensures forall n :: n in r <==> exists i :: 0 <= i < |rows| && InCountry(n)(rows[i])
  {
    if rows == [] then []
    else
      var rest := CountryNames(rows[1..]);
      assert forall i :: 1 <= i < |rows| ==> rows[i] == rows[1..][i - 1];
      if rows[0].profile.Some? then [rows[0].profile.value.country] + rest else rest
  }

  /** The cross-country analysis of one country's sorghum prices: the currency
      of its first priced row and the number of priced rows. The average price
      is not modelled. */
  datatype SorghumSummary = SorghumSummary(currency: string, observations: nat)

  /** A country has sorghum data: the table has the `sorghum` column and that
      country's sorghum cells are not all NaN. */
  function HasSorghum(t: Table): string -> bool
  {
    (n: string) => "sorghum" in t.columns && HasValue(RowsOf(t.rows, n), "sorghum")
  }

  /** The rows of country `n` with a sorghum price. */
  function SorghumRows(rows: seq<Row>, n: string): seq<Row>
  {
    Filter(Cleaning.NonNull("sorghum"), RowsOf(rows, n))
  }

  /** Row `i` is the earliest row of country `n` with a sorghum price. */
  ghost predicate FirstSorghumRow(rows: seq<Row>, n: string, i: int)
  {
    && 0 <= i < |rows|
    && InCountry(n)(rows[i]) && Cell(rows[i], "sorghum").Some?
    && forall j :: 0 <= j < i ==> !(InCountry(n)(rows[j]) && Cell(rows[j], "sorghum").Some?)
  }

  /** A country has sorghum data exactly when the table has the column and
      some row of that country has a sorghum price. */
  lemma HasSorghumMeaning(t: Table, n: string)
    ensures HasSorghum(t)(n) <==>
      "sorghum" in t.columns &&
      exists i :: 0 <= i < |t.rows| && InCountry(n)(t.rows[i]) && Cell(t.rows[i], "sorghum").Some?
  {
    var own := RowsOf(t.rows, n);
    if HasValue(own, "sorghum") {
      var i :| 0 <= i < |own| && Cell(own[i], "sorghum").Some?;
      assert own[i] in own;
      var j :| 0 <= j < |t.rows| && t.rows[j] == own[i];
    }
    if exists i :: 0 <= i < |t.rows| && InCountry(n)(t.rows[i]) && Cell(t.rows[i], "sorghum").Some? {
      var i :| 0 <= i < |t.rows| && InCountry(n)(t.rows[i]) && Cell(t.rows[i], "sorghum").Some?;
      FilterKeeps(InCountry(n), t.rows, t.rows[i]);
      var j :| 0 <= j < |own| && own[j] == t.rows[i];
    }
  }

  /** The first of a country's sorghum-priced rows is its earliest such row. */
  lemma FirstOfSorghumRows(rows: seq<Row>, n: string)
    requires |SorghumRows(rows, n)| > 0
    ensures exists i :: FirstSorghumRow(rows, n, i) && SorghumRows(rows, n)[0] == rows[i]
  {
    var both := Both(InCountry(n), Cleaning.NonNull("sorghum"));
    FilterFilter(InCountry(n), Cleaning.NonNull("sorghum"), rows);
    FilterHead(both, rows);
    var i :| 0 <= i < |rows| && both(rows[i]) && Filter(both, rows)[0] == rows[i]
      && forall j :: 0 <= j < i ==> !both(rows[j]);
    assert FirstSorghumRow(rows, n, i);
  }

  /** A country is selected for the sorghum analysis exactly when the table
      has the column and some row of that country has a sorghum price. */
  lemma SorghumCountriesMeaning(t: Table, n: string)
    ensures n in Filter(HasSorghum(t), Distinct(CountryNames(t.rows))) <==>
      "sorghum" in t.columns &&
      exists i :: 0 <= i < |t.rows| && InCountry(n)(t.rows[i]) && Cell(t.rows[i], "sorghum").Some?
  {
    HasSorghumMeaning(t, n);
    if HasSorghum(t)(n) {
      var i :| 0 <= i < |t.rows| && InCountry(n)(t.rows[i]) && Cell(t.rows[i], "sorghum").Some?;
      FilterKeeps(HasSorghum(t), Distinct(CountryNames(t.rows)), n);
    }
  }

  /** The first loop of the sorghum analysis: the countries, in order of first
      appearance, that have sorghum data. */
  method SorghumCountries(t: Table) returns (countries: seq<string>)
    ensures countries == Filter(HasSorghum(t), Distinct(CountryNames(t.rows)))
  {
    var names := Distinct(CountryNames(t.rows));
    countries := [];
    for i := 0 to |names|
      invariant countries == Filter(HasSorghum(t), names[..i])
    {
      FilterSnoc(HasSorghum(t), names[..i], names[i]);
      assert names[..i + 1] == names[..i] + [names[i]];
      if "sorghum" in t.columns && HasValue(RowsOf(t.rows, names[i]), "sorghum") {
        countries := countries + [names[i]];
      }
    }
    assert names[..|names|] == names;
  }

  /** The second loop of the sorghum analysis: for each listed country with
      at least one sorghum-priced row, the currency of the first such row and
      their number. */
  method SummarizeSorghum(t: Table, countries: seq<string>) returns (analysis: map<string, SorghumSummary>)
    ensures forall n :: n in analysis <==> n in countries && |SorghumRows(t.rows, n)| > 0
    ensures forall n :: n in analysis ==>
      && analysis[n].observations == |SorghumRows(t.rows, n)|
      && analysis[n].currency == SorghumRows(t.rows, n)[0].currency
  {
    analysis := map[];
    for i := 0 to |countries|
      invariant forall n :: n in analysis <==> n in countries[..i] && |SorghumRows(t.rows, n)| > 0
      invariant forall n :: n in analysis ==>
        && analysis[n].observations == |SorghumRows(t.rows, n)|
        && analysis[n].currency == SorghumRows(t.rows, n)[0].currency
    {
      var n := countries[i];
      var data := Filter(Cleaning.NonNull("sorghum"), RowsOf(t.rows, n));
      if |data| > 0 {
        analysis := analysis[n := SorghumSummary(data[0].currency, |data|)];
      }
      assert countries[..i + 1] == countries[..i] + [n];
    }
    assert countries[..|countries|] == countries;
  }

  /** `generate_cross_country_sorghum_analysis`: the countries of the combined
      table, in order of first appearance, that have sorghum data, and for each
      of them the currency of its first sorghum-priced row and the number of
      such rows. */
  method CrossCountrySorghum(t: Table) returns (countries: seq<string>, analysis: map<string, SorghumSummary>)
    ensures countries == Filter(HasSorghum(t), Distinct(CountryNames(t.rows)))
    ensures forall n :: n in countries <==>
      "sorghum" in t.columns &&
      exists i :: 0 <= i < |t.rows| && InCountry(n)(t.rows[i]) && Cell(t.rows[i], "sorghum").Some?
    ensures analysis.Keys == set n | n in countries
    ensures forall n :: n in analysis ==>
      analysis[n].observations == Cleaning.NonNullCount(RowsOf(t.rows, n), "sorghum") >= 1
    ensures forall n :: n in analysis ==>
      exists i :: FirstSorghumRow(t.rows, n, i) && analysis[n].currency == t.rows[i].currency
  {
    countries := SorghumCountries(t);
    forall n ensures n in countries <==>
      "sorghum" in t.columns &&
      exists i :: 0 <= i < |t.rows| && InCountry(n)(t.rows[i]) && Cell(t.rows[i], "sorghum").Some?
    {
      SorghumCountriesMeaning(t, n);
    }
    analysis := SummarizeSorghum(t, countries);
    forall n | n in countries ensures |SorghumRows(t.rows, n)| > 0 {
      assert HasSorghum(t)(n);
      Cleaning.NonNullCountPositive(RowsOf(t.rows, n), "sorghum");
    }
    forall n | n in analysis
      ensures exists i :: FirstSorghumRow(t.rows, n, i) && analysis[n].currency == t.rows[i].currency
    {
      FirstOfSorghumRows(t.rows, n);
    }
  }

  /** The sorghum countries keep the order in which countries first appear in
      the combined table. */
  lemma {:induction false} SorghumCountriesInOrder(t: Table)
    ensures var countries := Filter(HasSorghum(t), Distinct(CountryNames(t.rows)));
      forall a, b :: 0 <= a < b < |countries| ==>
        IndexOf(CountryNames(t.rows), countries[a]) < IndexOf(CountryNames(t.rows), countries[b])
  {
    var names := CountryNames(t.rows);
    DistinctFirstAppearance(names);
    FilterKeepsOrder(HasSorghum(t), Distinct(names), names);
  }

  /** Each country's commodity list, in the order of the portfolio's
      dictionary. */
  const CountryCommodities: seq<(string, seq<string>)> := [
    ("Kenya", ["maize", "potatoes", "sorghum"]),
    ("Nigeria", ["rice", "sorghum", "beans", "millet", "yam"]),
    ("Mali", ["beans", "groundnuts", "maize", "millet", "rice", "sorghum"]),
    ("Mozambique", ["cowpeas", "groundnuts", "maize", "maize_meal", "oil", "rice", "sugar", "wheat_flour"]),
    ("Senegal", ["maize", "millet", "rice", "sorghum"]),
    ("Somalia", ["maize", "oil", "rice", "sorghum"])
  ]

  /** The entry's list contains commodity `c`. */
  function Lists(c: string): ((string, seq<string>)) -> bool
  {
    (e: (string, seq<string>)) => c in e.1
  }

  /** The keys of a dictionary's entries, in order. */
  function CountryKeys(entries: seq<(string, seq<string>)>): (r: seq<string>)
    ensures |r| == |entries| && forall i :: 0 <= i < |r| ==> r[i] == entries[i].0
  {
    seq(|entries|, i requires 0 <= i < |entries| => entries[i].0)
  }

  /** The countries whose list contains `c`, in dictionary order. */
  function CountriesWith(dict: seq<(string, seq<string>)>, c: string): seq<string>
  {
    CountryKeys(Filter(Lists(c), dict))
  }

  /** A country is named for `c` exactly when its entry lists `c`; the number of
      countries named is the number of entries listing `c`. */
  lemma CountriesWithMeaning(dict: seq<(string, seq<string>)>, c: string)
    ensures forall n :: n in CountriesWith(dict, c) <==> exists i :: 0 <= i < |dict| && dict[i].0 == n && c in dict[i].1
    ensures |CountriesWith(dict, c)| == |Filter(Lists(c), dict)|
  {
    var listing := Filter(Lists(c), dict);
    forall n ensures n in CountriesWith(dict, c) <==> exists i :: 0 <= i < |dict| && dict[i].0 == n && c in dict[i].1
    {
      if n in CountriesWith(dict, c) {
        var k :| 0 <= k < |listing| && listing[k].0 == n;
        assert listing[k] in listing;
        var i :| 0 <= i < |dict| && dict[i] == listing[k];
      }
      if exists i :: 0 <= i < |dict| && dict[i].0 == n && c in dict[i].1 {
        var i :| 0 <= i < |dict| && dict[i].0 == n && c in dict[i].1;
        FilterKeeps(Lists(c), dict, dict[i]);
        var k :| 0 <= k < |listing| && listing[k] == dict[i];
        assert CountriesWith(dict, c)[k] == n;
      }
    }
  }

  /** `all_commodities`: the union of every country's list. */
  method AllCommodities(dict: seq<(string, seq<string>)>) returns (all: set<string>)
    ensures forall c :: c in all <==> exists i :: 0 <= i < |dict| && c in dict[i].1
  {
    all := {};
    for i := 0 to |dict|
      invariant forall c :: c in all <==> exists j :: 0 <= j < i && c in dict[j].1
    {
      all := all + set c | c in dict[i].1;
    }
  }

  /** `analyze_shared_commodities`: every commodity listed by at least two
      countries, mapped to the countries that list it, in dictionary order. */
  method AnalyzeSharedCommodities(dict: seq<(string, seq<string>)>) returns (shared: map<string, seq<string>>)
    ensures forall c :: c in shared <==> |CountriesWith(dict, c)| >= 2
    ensures forall c :: c in shared ==> shared[c] == CountriesWith(dict, c)
  {
    var all := AllCommodities(dict);
    var remaining := all;
    shared := map[];
    while remaining != {}
      invariant remaining <= all
      invariant forall c :: c in shared <==> c in all && c !in remaining && |CountriesWith(dict, c)| >= 2
      invariant forall c :: c in shared ==> shared[c] == CountriesWith(dict, c)
      decreases |remaining|
    {
      var c :| c in remaining;
      var countries := CountriesWith(dict, c);
      if |countries| > 1 {
        shared := shared[c := countries];
      }
      remaining := remaining - {c};
    }
    forall c | |CountriesWith(dict, c)| >= 2 ensures c in all {
      CountriesWithMeaning(dict, c);
      assert CountriesWith(dict, c)[0] in CountriesWith(dict, c);
    }
  }

  /** Adding an entry to the dictionary adds its country to the countries of
      `c` exactly when the entry lists `c`. */
  lemma CountriesWithSnoc(dict: seq<(string, seq<string>)>, e: (string, seq<string>), c: string)
    ensures CountriesWith(dict + [e], c) == CountriesWith(dict, c) + (if c in e.1 then [e.0] else [])
  {
    FilterSnoc(Lists(c), dict, e);
  }

  /** Kenya, Nigeria and Mali, the first three entries, all list sorghum. */
  lemma PortfolioSorghumFirstThree()
    ensures CountriesWith(CountryCommodities[..3], "sorghum") == ["Kenya", "Nigeria", "Mali"]
  {
    var d := CountryCommodities;
    assert CountriesWith(d[..1], "sorghum") == ["Kenya"] by {
      assert "sorghum" in d[0].1;
      CountriesWithSnoc([], d[0], "sorghum");
      assert [] + [d[0]] == d[..1];
    }
    assert CountriesWith(d[..2], "sorghum") == ["Kenya", "Nigeria"] by {
      assert "sorghum" in d[1].1;
      CountriesWithSnoc(d[..1], d[1], "sorghum");
      assert d[..1] + [d[1]] == d[..2];
    }
    assert "sorghum" in d[2].1;
    CountriesWithSnoc(d[..2], d[2], "sorghum");
    assert d[..2] + [d[2]] == d[..3];
  }

  /** Mozambique does not list sorghum; Senegal does. */
  lemma PortfolioSorghumFirstFive()
    ensures CountriesWith(CountryCommodities[..5], "sorghum") == ["Kenya", "Nigeria", "Mali", "Senegal"]
  {
    var d := CountryCommodities;
    PortfolioSorghumFirstThree();
    assert CountriesWith(d[..4], "sorghum") == ["Kenya", "Nigeria", "Mali"] by {
      assert "sorghum" !in d[3].1;
      CountriesWithSnoc(d[..3], d[3], "sorghum");
      assert d[..3] + [d[3]] == d[..4];
    }
    assert "sorghum" in d[4].1;
    CountriesWithSnoc(d[..4], d[4], "sorghum");
    assert d[..4] + [d[4]] == d[..5];
  }

  /** In the portfolio's dictionary sorghum is listed by five countries, all
      but Mozambique. */
  lemma PortfolioSorghum()
    ensures CountriesWith(CountryCommodities, "sorghum") == ["Kenya", "Nigeria", "Mali", "Senegal", "Somalia"]
  {
    var d := CountryCommodities;
    PortfolioSorghumFirstFive();
    assert "sorghum" in d[5].1;
    CountriesWithSnoc(d[..5], d[5], "sorghum");
    assert d[..5] + [d[5]] == d;
  }
}
