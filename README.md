# PricePulse cleaning and six-country unification, modelled in Dafny

PricePulse turns per-country food-price extracts into one cross-country table.
Each country has a cleaner script that takes a wide price frame (one nullable
price column per commodity) and does three things:

- it writes a `year_month` column into the caller's frame;
- it keeps the rows that have a price for one of the country's commodities;
- it drops the aggregate "Market Average" pseudo-market.

The Mali, Mozambique, Senegal and Somalia scripts also report three things:

- the list of commodities available (not all NaN);
- a per-market summary;
- a per-commodity availability count.

Mozambique, Senegal and Somalia also print a cross-country overlap list.

The multi-country processor does the rest:

- it loads the six cleaned tables and stamps every row with the country's
  constant metadata (name, ISO code, region, sub-region, population);
- it concatenates them in the order Kenya, Nigeria, Mali, Mozambique, Senegal,
  Somalia;
- it computes which commodities several countries share;
- it finds, in order of first appearance, the countries with sorghum data,
  with the currency and observation count of each.

The project is organised as follows:

- `results.dfy` holds `Option` and `Result`.
- `records.dfy` models a data frame as a `Table` of `Row`s. The `Frame` class
  is the mutable frame a cleaner receives.
- `sequences.dfy` holds the generic order-preserving selection that boolean
  masks and `unique()` come down to.
- `cleaning.dfy` holds the cleaning step shared by all cleaners, parametrised
  by the commodity list, and the summaries computed on cleaned tables.
- One module per country (`data_cleaner.dfy` for Kenya, `clean_*.dfy` for the
  others) fixes the commodity list and states its contracts in terms of those
  columns.
- `multi_country.dfy` models the processor.

Notes on what the code does:

- No cleaner reshapes its table to long form. The combined table stays wide,
  and a country's missing columns read as NaN.
- The cleaners do not intersect their commodity list with the columns that
  are present. Selecting a missing column raises, modelled as
  `Failure(MissingColumns(...))`. The `year_month` column has already been
  written into the caller's frame at that point.
- The processor does not skip a country whose load fails.

## Model

| member | source | states |
|---|---|---|
| Cleaning.StampYearMonth | src/processing/data_cleaner.py:11 | every row gets the month of its own date as `year_month`; columns, row count and every other cell are unchanged |
| Cleaning.StampKeepsStamped | src/processing/clean_mali.py:11 | writing `year_month` again into rows that already have it changes nothing |
| Cleaning.CleanRows | src/processing/data_cleaner.py:14-18 | the cleaned rows are at most the input rows, each one an input row with some listed price and a real market |
| Cleaning.MissingFrom | src/processing/data_cleaner.py:15 | the missing-column list is empty exactly when every listed column is present, and names only listed columns that are absent |
| Cleaning.CleanTable | src/processing/data_cleaner.py:14-24 | fails exactly when a listed commodity column is missing, naming a non-empty list of missing listed columns; otherwise keeps the columns and only priced rows of real markets |
| Cleaning.ListedColumnsPresent | src/processing/data_cleaner.py:15 | "every listed column is present" is the same as inclusion of the listed set in the frame's columns |
| Cleaning.PricedRowHasListedPrice | src/processing/data_cleaner.py:15 | a row passing `notna().any(axis=1)` has a non-NaN cell in a listed column |
| Cleaning.CleanCountryData | src/processing/data_cleaner.py:4-24 | the caller's frame ends up with `year_month` stamped on every row and nothing else changed; the result is the selection from that stamped frame; every kept row is stamped, priced and from a real market |
| Cleaning.CleanRowsSelection | src/processing/data_cleaner.py:15-18 | the cleaned rows are exactly the input rows at the ascending positions of the qualifying rows: unchanged, in input order, and a position is selected if and only if its row is priced and from a real market |
| Cleaning.CleanRowsComplete | src/processing/data_cleaner.py:15-18 | every occurrence of a qualifying row is kept, and a non-qualifying row occurs zero times |
| Cleaning.CleanFiltersCommute | src/processing/clean_nigeria.py:16-20 | applying the market filter before the price filter gives the same rows |
| Cleaning.CleanIdempotent | src/processing/clean_nigeria.py:4-26 | cleaning a cleaner's output again succeeds with the same table |
| Cleaning.MarketSummary | src/processing/clean_mali.py:32-45 | fails exactly when a listed column is missing; otherwise has one group per market present in the frame, and in each the `count` of every listed commodity |
| Cleaning.MarketCountMeaning | src/processing/clean_mali.py:35-43 | a market's count is at most the market's row count, and is positive if and only if one of its rows has a price in that column |
| Cleaning.NonNullCountPositive | src/processing/clean_mali.py:66 | a column's non-NaN count is positive if and only if the column is not all NaN |
| Cleaning.MarketCountsAddUp | src/processing/clean_mali.py:35-43 | the per-market counts of a column, added up over the distinct markets, equal the column's overall non-NaN count |
| Cleaning.SumMarketCountsCovers | src/processing/clean_mali.py:35-43 | over distinct markets covering all rows, the market counts sum to the column's non-NaN count |
| Cleaning.CleanedMarketHasCount | src/processing/clean_mali.py:32-45 | on a cleaned table every market in the summary has a positive count for some listed commodity |
| Cleaning.AvailableCommodities | src/processing/clean_mali.py:25 | the available list holds only listed columns that are not all NaN |
| Cleaning.AvailableSnoc | src/processing/clean_mali.py:25 | checking one more listed column appends it exactly when it has a value |
| Cleaning.AvailableInListOrder | src/processing/clean_mozambique.py:25 | the available list is exactly the listed columns with a non-NaN cell, in list order |
| Cleaning.AvailableNonEmpty | src/processing/clean_senegal.py:25 | a non-empty cleaned table has at least one available commodity |
| Cleaning.CommodityCounts | src/processing/clean_mali.py:65-68 | one count per listed commodity, equal to its non-NaN count and positive if and only if the column is not all NaN |
| KenyaCleaner.MissingIffNotIncluded | src/processing/data_cleaner.py:14-15 | some Kenya column is missing if and only if maize, potatoes and sorghum are not all among the columns |
| KenyaCleaner.PricedHasListedPrice | src/processing/data_cleaner.py:15 | a priced Kenya row has a maize, potatoes or sorghum price |
| KenyaCleaner.CleanKenyaData | src/processing/data_cleaner.py:4-24 | stamps the caller's frame; fails if and only if one of maize, potatoes or sorghum is missing; every kept row has one of those prices and is not "Market Average" |
| KenyaCleaner.MarketSummary | src/processing/data_cleaner.py:26-36 | fails if and only if a Kenya column is missing; one group per market, each with the counts of maize, potatoes and sorghum |
| NigeriaCleaner.MissingIffNotIncluded | src/processing/clean_nigeria.py:14-17 | some Nigeria column is missing if and only if rice, sorghum, beans, millet and yam are not all among the columns |
| NigeriaCleaner.PricedHasListedPrice | src/processing/clean_nigeria.py:17 | a priced Nigeria row has a rice, sorghum, beans, millet or yam price |
| NigeriaCleaner.CleanNigeriaData | src/processing/clean_nigeria.py:4-26 | stamps the caller's frame; fails if and only if a Nigeria column is missing; every kept row has one of those prices and is not "Market Average" |
| MaliCleaner.MissingIffNotIncluded | src/processing/clean_mali.py:14-17 | some Mali column is missing if and only if the six Mali commodities are not all among the columns |
| MaliCleaner.PricedHasListedPrice | src/processing/clean_mali.py:17 | a priced Mali row has a price for one of the six Mali commodities |
| MaliCleaner.CleanMaliData | src/processing/clean_mali.py:4-30 | stamps the caller's frame; fails if and only if a Mali column is missing; every kept row has one of the six prices and is not "Market Average" |
| MaliCleaner.MarketSummary | src/processing/clean_mali.py:32-45 | fails if and only if a Mali column is missing; one group per market, each with the counts of the six commodities |
| MozambiqueCleaner.MissingIffNotIncluded | src/processing/clean_mozambique.py:14-17 | some Mozambique column is missing if and only if the eight Mozambique commodities are not all among the columns |
| MozambiqueCleaner.PricedHasListedPrice | src/processing/clean_mozambique.py:17 | a priced Mozambique row has a price for one of the eight commodities |
| MozambiqueCleaner.CleanMozambiqueData | src/processing/clean_mozambique.py:4-30 | stamps the caller's frame; fails if and only if a Mozambique column is missing; every kept row has one of the eight prices and is not "Market Average" |
| MozambiqueCleaner.MarketSummary | src/processing/clean_mozambique.py:32-47 | fails if and only if a Mozambique column is missing; one group per market, each with the counts of the eight commodities |
| MozambiqueCleaner.LabelsSnoc | src/processing/clean_mozambique.py:75-79 | reporting one more commodity appends its text |
| MozambiqueCleaner.SharedCommodities | src/processing/clean_mozambique.py:75-79 | the overlap list is the labels of the available maize and rice columns; each label appears if and only if its column has a value; nothing else appears; with both present, maize comes first |
| SenegalCleaner.MissingIffNotIncluded | src/processing/clean_senegal.py:14-17 | some Senegal column is missing if and only if maize, millet, rice and sorghum are not all among the columns |
| SenegalCleaner.PricedHasListedPrice | src/processing/clean_senegal.py:17 | a priced Senegal row has a maize, millet, rice or sorghum price |
| SenegalCleaner.CleanSenegalData | src/processing/clean_senegal.py:4-30 | stamps the caller's frame; fails if and only if a Senegal column is missing; every kept row has one of the four prices and is not "Market Average" |
| SenegalCleaner.MarketSummary | src/processing/clean_senegal.py:32-43 | fails if and only if a Senegal column is missing; one group per market, each with the counts of the four commodities |
| SenegalCleaner.LabelsSnoc | src/processing/clean_senegal.py:70-78 | reporting one more commodity appends its text |
| SenegalCleaner.SharedLabelInjective | src/processing/clean_senegal.py:70-78 | different candidate commodities are reported with different texts |
| SenegalCleaner.LabelsOfAvailable | src/processing/clean_senegal.py:70-78 | a candidate's text is in the labelled available list if and only if its column has a value |
| SenegalCleaner.SharedCommodities | src/processing/clean_senegal.py:70-78 | the overlap list is the labels of the available maize, millet, rice and sorghum columns in that order; each label appears if and only if its column has a value |
| SomaliaCleaner.MissingIffNotIncluded | src/processing/clean_somalia.py:14-17 | some Somalia column is missing if and only if maize, oil, rice and sorghum are not all among the columns |
| SomaliaCleaner.PricedHasListedPrice | src/processing/clean_somalia.py:17 | a priced Somalia row has a maize, oil, rice or sorghum price |
| SomaliaCleaner.CleanSomaliaData | src/processing/clean_somalia.py:4-30 | stamps the caller's frame; fails if and only if a Somalia column is missing; every kept row has one of the four prices and is not "Market Average" |
| SomaliaCleaner.MarketSummary | src/processing/clean_somalia.py:32-43 | fails if and only if a Somalia column is missing; one group per market, each with the counts of the four commodities |
| SomaliaCleaner.LabelsSnoc | src/processing/clean_somalia.py:70-76 | reporting one more commodity appends its text |
| SomaliaCleaner.SharedLabelInjective | src/processing/clean_somalia.py:70-76 | different candidate commodities are reported with different texts |
| SomaliaCleaner.LabelsOfAvailable | src/processing/clean_somalia.py:70-76 | a candidate's text is in the labelled available list if and only if its column has a value |
| SomaliaCleaner.SharedCommodities | src/processing/clean_somalia.py:70-76 | the overlap list is the labels of the available maize, rice and sorghum columns in that order; each appears if and only if its column has a value; oil is never reported |
| MultiCountry.Position | src/multi_country/multi_country_processor.py:90 | each country has its place in the concatenation order |
| MultiCountry.ProfilesDistinct | src/multi_country/multi_country_processor.py:7-71 | different countries are written with different names and codes |
| MultiCountry.Load | src/multi_country/multi_country_processor.py:7-16 | a loaded table keeps the file's columns and rows, except that every row carries the country's metadata |
| MultiCountry.LoadedRowsOf | src/multi_country/multi_country_processor.py:62-71 | selecting its own country from a loaded table gives all of it; selecting any other country gives nothing |
| MultiCountry.Concat | src/multi_country/multi_country_processor.py:91 | the concatenation has as many rows as the tables together |
| MultiCountry.ConcatContents | src/multi_country/multi_country_processor.py:91 | the concatenation has a column if and only if one of the tables has it, and a row if and only if one of the tables has it |
| MultiCountry.ConcatBlock | src/multi_country/multi_country_processor.py:91 | table `k` appears in the concatenation as one contiguous block in its own order, after the rows of the tables before it |
| MultiCountry.FilterConcatSingle | src/multi_country/multi_country_processor.py:91 | a filter that holds on all of one table and none of the others selects exactly that table from the concatenation |
| MultiCountry.Loaded | src/multi_country/multi_country_processor.py:80-90 | the six loaded tables, each the loaded file of the country at that place in the order |
| MultiCountry.LoadedTotalRows | src/multi_country/multi_country_processor.py:90-91 | the loaded tables have as many rows as the six files together |
| MultiCountry.LoadedRowProfile | src/multi_country/multi_country_processor.py:80-90 | each row of the `k`-th loaded table carries the `k`-th country's metadata |
| MultiCountry.LoadedRowElsewhere | src/multi_country/multi_country_processor.py:80-90 | a row of another country's loaded table is not selected by this country's name |
| MultiCountry.LoadedRowsProfiled | src/multi_country/multi_country_processor.py:90-91 | every combined row carries the metadata of one of the countries |
| MultiCountry.ProcessMultiCountry | src/multi_country/multi_country_processor.py:73-116 | the combined table has exactly as many rows as the six files together |
| MultiCountry.CombinedContents | src/multi_country/multi_country_processor.py:90-91 | the combined table has a column if and only if some country's file has it, and every row carries one country's metadata |
| MultiCountry.CombinedBlock | src/multi_country/multi_country_processor.py:90-91 | each country's loaded table is one contiguous block of the combined table, at its place in the order |
| MultiCountry.CountryRowsRecovered | src/multi_country/multi_country_processor.py:112-114 | selecting a country from the combined table gives back exactly its loaded table, in order, with nothing from elsewhere |
| MultiCountry.PopulationSumAppend | src/multi_country/multi_country_processor.py:100 | the population column sum over two blocks is the sum of their sums |
| MultiCountry.PopulationSumConstant | src/multi_country/multi_country_processor.py:100 | rows that all carry one profile sum to row count times its population |
| MultiCountry.CombinedRowsAreBlocks | src/multi_country/multi_country_processor.py:90-91 | the combined rows are the six loaded tables' rows, one after another in country order |
| MultiCountry.LoadedPopulation | src/multi_country/multi_country_processor.py:15 | a loaded table contributes its row count times its country's population |
| MultiCountry.PopulationSumOfCombined | src/multi_country/multi_country_processor.py:100 | the printed population total is 54, 218, 22, 32, 17 and 17 times the row counts of the six files |
| MultiCountry.PopulationSumOfSix | src/multi_country/multi_country_processor.py:100 | the population column sum of six blocks is the sum of their sums |
| MultiCountry.CoveredPopulationOfAll | src/multi_country/multi_country_processor.py:100 | with data for all six countries the covered population is 360 million |
| MultiCountry.CoveredPopulationIgnoresRowCounts | src/multi_country/multi_country_processor.py:100 | the covered population depends only on which countries have data |
| MultiCountry.PopulationOfZero | src/multi_country/multi_country_processor.py:100 | a list of countries adds nothing to the covered population if and only if none of them has rows |
| MultiCountry.NoCountryHasRows | src/multi_country/multi_country_processor.py:90 | no country in the concatenation order has rows if and only if no country has rows |
| MultiCountry.CoveredPopulation | src/multi_country/multi_country_processor.py:100 | the corrected total counts each country with data once; it is 0 if and only if no country has data |
| MultiCountry.PopulationSumCountsEveryRow | src/multi_country/multi_country_processor.py:100 | two Kenya rows give a printed total of 108 while the covered population is 54 |
| MultiCountry.CountryNames | src/multi_country/multi_country_processor.py:175 | a name is in the `country` column if and only if some row carries it |
| MultiCountry.HasSorghumMeaning | src/multi_country/multi_country_processor.py:177 | a country has sorghum data if and only if the column exists and one of its rows has a sorghum price |
| MultiCountry.FirstOfSorghumRows | src/multi_country/multi_country_processor.py:191 | the first of a country's sorghum-priced rows is its earliest such row in the combined table |
| MultiCountry.SorghumCountriesMeaning | src/multi_country/multi_country_processor.py:174-178 | a country is selected if and only if the column exists and one of its rows has a sorghum price |
| MultiCountry.SorghumCountries | src/multi_country/multi_country_processor.py:174-178 | the loop returns the distinct countries, in order of first appearance, that have sorghum data |
| MultiCountry.SummarizeSorghum | src/multi_country/multi_country_processor.py:184-197 | a listed country gets an entry if and only if it has sorghum-priced rows; the entry holds their number and the first one's currency |
| MultiCountry.CrossCountrySorghum | src/multi_country/multi_country_processor.py:168-197 | the sorghum countries are exactly those with a sorghum price; the analysis has an entry for each of them, with an observation count of at least 1 and the currency of the earliest sorghum-priced row |
| MultiCountry.SorghumCountriesInOrder | src/multi_country/multi_country_processor.py:175-178 | the sorghum countries appear in the order in which the countries first occur in the combined table |
| MultiCountry.CountriesWithMeaning | src/multi_country/multi_country_processor.py:140-141 | a country is named for a commodity if and only if its list contains it |
| MultiCountry.AllCommodities | src/multi_country/multi_country_processor.py:135-137 | the union holds a commodity if and only if some country lists it |
| MultiCountry.AnalyzeSharedCommodities | src/multi_country/multi_country_processor.py:118-149 | a commodity is in the result if and only if at least two countries list it, mapped to those countries in dictionary order |
| MultiCountry.CountriesWithSnoc | src/multi_country/multi_country_processor.py:140-141 | one more entry adds its country exactly when it lists the commodity |
| MultiCountry.PortfolioSorghum | src/multi_country/multi_country_processor.py:124-131 | in the portfolio dictionary sorghum is listed by Kenya, Nigeria, Mali, Senegal and Somalia |
| Sequences.Filter | src/processing/data_cleaner.py:15 | a mask selection is no longer than its input and keeps only input elements that pass |
| Sequences.PositionsFromExact | src/processing/data_cleaner.py:15 | the selected positions are ascending, in range, and are exactly those whose element passes |
| Sequences.FilterIsOrderedSelection | src/processing/data_cleaner.py:15 | a mask selection consists of the passing elements at ascending positions |
| Sequences.FilterMultiplicity | src/processing/data_cleaner.py:18 | a mask selection keeps every occurrence of a passing element and no occurrence of a failing one |
| Sequences.FilterCommutes | src/processing/data_cleaner.py:15-18 | two masks applied in either order select the same rows |
| Sequences.FilterAppend | src/multi_country/multi_country_processor.py:91 | a mask over a concatenation is the concatenation of the masked parts |
| Sequences.FilterHead | src/multi_country/multi_country_processor.py:191 | the first selected element is the earliest element that passes |
| Sequences.Distinct | src/multi_country/multi_country_processor.py:175 | `unique()` has no duplicates and holds exactly the input's values |
| Sequences.DistinctFirstAppearance | src/multi_country/multi_country_processor.py:175 | `unique()` lists the values in order of first appearance |
| Sequences.FilterKeepsOrder | src/multi_country/multi_country_processor.py:175-178 | a mask over a list ordered by first appearance stays ordered |

## Left out

- Reading and writing CSV files, file paths, and the `__main__` driver blocks
  are not modelled. A table arrives as a value, and the cleaned and unified
  files are not written.
- `pd.to_datetime` is not modelled. Dates arrive already parsed, so a
  malformed date cannot occur in the model.
- Prices are integers. The `mean`, `std` and `round(2)` aggregates of the
  market summaries, the percentages of the availability report and the
  average sorghum price are floating point and are left out. The summaries
  keep only their `count` columns.
- The `price_date` `min`/`max` columns of the market summaries are not
  modelled.
- Console output is not modelled:
  - the row, market, country and population prints;
  - the `nunique` and country-breakdown prints;
  - the sample market names;
  - the shared-commodity print, which is sorted by country count.

  The computations those prints report are modelled where they carry a
  property: the population sum, the available list and the per-commodity
  counts.
- `create_visualizations`, `save_unified_dataset` and
  `generate_summary_report` are not modelled. They draw figures and write
  files, and the report's timestamp comes from the clock.
- `analyze_regional_patterns` is not modelled. It only prints, and its
  population sums are floating point; they have the same defect as the
  Findings row below.
- The `groupby('country')` aggregate at
  src/multi_country/multi_country_processor.py:105-110 is never used and is
  not modelled.
- A row tracks its commodity cells, market, date, currency, `year_month` and
  the loader metadata. Other source columns (administrative regions,
  coordinates) are not modelled.
- `population_millions` is a whole number of millions. The source's values
  (54.0, 218.0, 22.0, 32.0, 17.0, 17.0) are all integral.
- The notebook and `src/analysis/price_analyzer.py` are not part of this
  model.
- `MultiCountry.ProcessMultiCountry` returns the empty table when all six
  files are empty. The source instead raises at
  src/multi_country/multi_country_processor.py:101: the earliest and latest
  `price_date` of an empty table are NaT, and NaT has no `strftime`. That
  raise is not modelled.
- `Records.Row` and `Cleaning.MarketSummary` assume that the identifying
  columns `mkt_name`, `price_date` and `currency` are present and never NaN.
  In the source, a frame without `price_date` raises at
  src/processing/data_cleaner.py:8, before `year_month` is written. A frame
  without `mkt_name` raises at src/processing/data_cleaner.py:18, after
  `year_month` is written. A row whose `mkt_name` is NaN survives the
  market filter but is dropped by `groupby('mkt_name')`
  (src/processing/clean_mali.py:35). `Cleaning.MarketCountsAddUp` therefore
  holds only for rows that have a market name.
- `MultiCountry.ProcessMultiCountry`: a load that fails is not modelled,
  because each loader reads a file and the model takes the six tables as
  values.
- `MultiCountry.AnalyzeSharedCommodities` iterates over the commodity set in
  an unspecified order, as Python's set iteration does. The map it builds does
  not depend on that order.

## Findings

| source | as written | input that shows it | evidently intended | confidence | as-written member | corrected member |
|---|---|---|---|---|---|---|
| src/multi_country/multi_country_processor.py:100 | "Total population covered" sums `population_millions` over every row of the combined table, so each country's population is counted once per price observation (the same sum is written at :269) | a combined table with two Kenya rows and no other rows prints 108 million | each country with data counted once: 54 million here, 360 million with all six countries | not executed | MultiCountry.PopulationSumCountsEveryRow | MultiCountry.CoveredPopulation |
