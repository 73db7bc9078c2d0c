# open-grid-emissions: a Dafny model of the CEMS cleaning pipeline and its output transforms

This project models the table logic of `src/data_cleaning.py` and `src/output_data.py` of
open-grid-emissions and proves what these functions promise. `src/data_cleaning.py` cleans the
hourly EPA CEMS emissions data. `src/output_data.py` converts and writes the results.

Every pandas table is a sequence of records. A nullable number is `Option<real>`. Where a division
can produce ±inf or NaN, the value is a `Num` (`Fin`, `NaN`, `Inf`).

The modules follow the source:

- `Common` (common.dfy): pandas semantics shared by all modules.
  - Skip-NaN sums (`SumOf`), group totals (`GroupTotal`) and `Filter`.
  - `query(...).iloc[0]` as `First`; `drop_duplicates` of keys as `Distinct`.
  - The quotient rules of float division (`Div`).
- `Text` (text.dfy): Python's `str(n)`, `str.split`, `str.replace` and `sorted` on strings.
- `Tables` (tables.dfy): the record types of the CEMS table, the EPA-EIA crosswalk and EIA-923.
- `Filters` (filters.dfy): the whole-plant and whole-unit-month filters.
  - `remove_non_grid_connected_plants`, `remove_heating_only_plants` and
    `remove_cems_with_zero_monthly_emissions`.
  - The `determine_cems_reporting_status` labeller.
- `Co2Imputation` (co2_imputation.dfy): `get_epa_unit_fuel_types`, `calculate_co2_from_heat_content`
  and `fill_cems_missing_co2`.
  - The fill works in place on an array of CEMS rows, one method per pass of the source.
  - Also the unit drop of `clean_cems`.
- `Geothermal` (geothermal.dfy): `calculate_geothermal_emission_factors`.
  - The six ordered geotype re-assignments work in place on an array.
- `CleanCemsPipeline` (clean_cems.dfy): `clean_cems` on tables that are already loaded.
- `FuelCascade` (fuel_cascade.dfy): `monthly_fuel_types` and all of its helpers.
  - The helpers: fuel proportions, primary fuel, single-fuel plants, unit-to-boiler match, crosswalk
    match and fuel code lookup.
  - The four stages rewrite an array of units. Each stage writes only units still labelled "unknown".
- `GrossToNet` (gross_to_net.dfy): `convert_gross_to_net_generation` and `model_gross_to_net`.
- `Lookups` (lookups.dfy): the id and code lookups.
  - `crosswalk_epa_eia_plant_ids`, `crosswalk_epa_unit_to_eia_generator_id`,
    `identify_emissions_data_source` and `assign_ba_code_to_plant`.
  - The time-zone table of `add_report_date`, the crosswalk fuel-name table of
    `get_epa_eia_crosswalk` and `map_fuel_code_to_eia930_category`.
- `OutputData` (output_data.dfy): `output_plant_data`, `convert_results`, `write_generated_averages`,
  `add_generated_emission_rate_columns` and `write_plant_metadata`.
  - `convert_results` is a method over an array of columns, with the source's loop and early exit.

A few behaviours of the code are easy to misread. In each of them the model follows the code:

- **Monthly ratio.** Only the regression input is restricted to [0.5, 1.5]
  (src/data_cleaning.py:600). Every non-null monthly ratio is used, whatever its value
  (src/data_cleaning.py:615-621). A month with no ratio and no
  accepted slope keeps a null ratio. Its net generation stays equal to gross, the placeholder set at
  src/data_cleaning.py:579-581.
- **The "net_equals_gross" tag.** The comment at src/data_cleaning.py:625 says this tag marks hours
  left on the 1:1 default. The code tags every plant-month with a null ratio "annual_regression"
  first (src/data_cleaning.py:612), so those hours never get it (see Findings). The model has both
  labellings.
- **Derived ratio.** Nothing keeps the ratio of src/data_cleaning.py:595 non-negative. A negative
  EIA net value gives a negative ratio, and the model allows it.
- **Sum-based filters.** The heat-only filter and the zero-month filter test sums, not individual
  values. A unit-month whose CO2, generation and heat totals cancel out to zero is removed.
- **Round-two shares.** src/data_cleaning.py:323 divides each fuel's figure by its plant-month
  total as floats. `fillna(1)` turns a 0/0 share into 1 (see Findings). A figure other than zero
  over a total that cancels to zero is an infinite share. The model keeps these shares as `Num`
  values, and the fill uses them as the source does.

## Model

| member | source | states |
|---|---|---|
| Text.DecimalDigitAt | src/data_cleaning.py:61 | `str(n)` read from the right gives the decimal digits of n |
| Text.SixDigits | src/data_cleaning.py:61 | `str(n)` has at least six characters exactly when n ≥ 100000 |
| Text.SplitJoin | src/output_data.py:125 | joining the pieces of `split('_')` with `_` gives the column name back |
| Text.SplitPiecesHaveNoSeparator | src/output_data.py:125 | no piece of `split('_')` contains `_`, so a token is a whole word of the name |
| Text.ReplaceAbsent | src/output_data.py:131 | `str.replace` leaves a name without the unit unchanged |
| Text.Sort | src/data_cleaning.py:1056-1057 | `sorted`: the result is in ascending order and a permutation of its input |
| Text.SortedUnique | src/data_cleaning.py:1056-1057 | two sorted permutations of the same elements are equal, so `sorted` has one answer |
| Text.SortEqualIffPermutation | src/data_cleaning.py:1056-1057 | `sorted(a) == sorted(b)` exactly when a and b hold the same elements with the same multiplicities |
| Filters.FilterPlantsKeepsWholePlants | src/data_cleaning.py:61-65 | a plant-level filter keeps or drops all of a plant's rows together, keeping their order |
| Filters.FilterPlantsTwice | src/data_cleaning.py:61-65 | the grid filter's two passes in a row are one filter by both decisions |
| Filters.SearchIsSuffixTest | src/data_cleaning.py:61 | searching for the `$`-anchored pattern succeeds exactly when the last six characters match it |
| Filters.EightEightDigits | src/data_cleaning.py:61 | the 5th and 6th digits from the right are eights exactly when n mod 10^6 is in [880000, 889999] |
| Filters.SyntheticPatternOfNat | src/data_cleaning.py:61 | `str(n)` contains `[8][8][0-9]{4}$` exactly when n mod 10^6 is in [880000, 889999], so 7-digit ids can match |
| Filters.SyntheticIdArithmetic | src/data_cleaning.py:61 | for any integer id, the regex test equals the arithmetic test on its absolute value |
| Filters.NonGridFilterIsOnePlantFilter | src/data_cleaning.py:46-67 | a row survives exactly when its plant is not listed and its id is not synthetic; the two passes are one plant filter |
| Filters.HeatOnlyRemovesWholePlants | src/data_cleaning.py:69-88 | a plant's rows are all removed exactly when its annual gross load is 0 and its steam load is positive; otherwise they are all kept |
| Filters.HeatOnlyTestSurvivesPlantFilter | src/data_cleaning.py:79-80 | removing other plants leaves the heat-only test of a kept plant unchanged |
| Filters.HeatOnlyFilterIdempotent | src/data_cleaning.py:69-88 | applying the heat-only filter twice equals applying it once |
| Filters.GridAndHeatOnlyFiltersCommute | src/data_cleaning.py:46-88 | the grid filter and the heat-only filter give the same table in either order |
| Filters.FilterUnitMonthsKeepsWholeGroups | src/data_cleaning.py:398-405 | a unit-month filter keeps or drops all of a unit-month's rows together |
| Filters.ZeroMonthRemovesWholeUnitMonths | src/data_cleaning.py:384-407 | a unit-month is removed as a whole exactly when its CO2, generation and heat totals sum to zero |
| Filters.ZeroMonthFilterIdempotent | src/data_cleaning.py:384-407 | applying the zero-month filter twice equals applying it once |
| Filters.UnitMonths | src/data_cleaning.py:98 | the group keys: each (cems_id, report_date) of the table, once |
| Filters.DetermineCemsReportingStatus | src/data_cleaning.py:90-110 | same rows in the same order with only the label set; `full_year` exactly when the unit reported in 12 distinct months, else `partial_year` |
| Filters.MonthCountIsMonthsReported | src/data_cleaning.py:101 | counting a unit's group keys counts its distinct reporting months |
| Filters.FullYearMeansEveryMonth | src/data_cleaning.py:101 | within one calendar year, 12 reported months means every month 1 to 12 |
| Filters.TwelveOfTwelve | src/data_cleaning.py:101 | a set of calendar months has 12 members exactly when it holds every month 1 to 12 |
| Co2Imputation.ReplaceCamdFuelType | src/data_cleaning.py:118-130 | `Series.replace(dict)`: a listed CAMD name becomes its EIA code; other names and nulls are kept |
| Co2Imputation.FilledFuelType | src/data_cleaning.py:132-133 | the EIA fuel type where present, else the translated CAMD fuel type |
| Co2Imputation.FuelTypeCandidates | src/data_cleaning.py:116-137 | a (plant, unit, code) is a candidate exactly when some crosswalk row of the unit fills to that code; no more candidates than crosswalk rows |
| Co2Imputation.FuelColumnsOf | src/data_cleaning.py:116 | one four-column tuple per crosswalk row, in order; a tuple occurs exactly when some crosswalk row has it |
| Co2Imputation.KnownFuels | src/data_cleaning.py:129-134 | a raw row gives a candidate exactly when its EIA fuel type, filled from the translated CAMD one, is known |
| Co2Imputation.CoalTwiceCandidates | src/data_cleaning.py:116-134 | two raw rows that differ only in the CAMD name and fill to the same code both stay candidates |
| Co2Imputation.SameFuelTwiceDropsUnit | src/data_cleaning.py:116-137 | such a unit counts as listed twice and `duplicated(keep=False)` drops it |
| Co2Imputation.EpaUnitFuelTypes | src/data_cleaning.py:112-144 | a candidate is kept exactly when its (plant, unit) key occurs once (`duplicated(keep=False)`), so no key is left twice |
| Co2Imputation.KeysUniqueAfterFilter | src/data_cleaning.py:140 | keeping the rows whose key occurs once leaves every key unique |
| Co2Imputation.UnitFuelLookup | src/data_cleaning.py:292 | the merged fuel type is that of a fuel-type row of the unit; null exactly when the unit has none |
| Co2Imputation.LookupFindsTheUnitsFuel | src/data_cleaning.py:289-292 | a unit in the fuel-type table gets exactly its own fuel code |
| Co2Imputation.PreStepMarksMissing | src/data_cleaning.py:275-279 | a value is marked missing exactly when it was null or 0 with heat input; other values are kept, and a null becomes 0 |
| Co2Imputation.FuelCodes | src/data_cleaning.py:320 | the distinct fuels of a plant-month, non-empty exactly when it has rows |
| Co2Imputation.FuelCodesMembership | src/data_cleaning.py:320 | every row's fuel is listed, and every listed fuel is burned by some row |
| Co2Imputation.FuelTotalsPartition | src/data_cleaning.py:320-323 | the per-fuel totals add up to the plant-month total |
| Co2Imputation.SharesAsWrittenSumToOne | src/data_cleaning.py:323-325 | when fuel was burned, the source's float shares are finite and add up to 1 |
| Co2Imputation.SharesAsWrittenWithoutFuel | src/data_cleaning.py:323-325 | for a zero total: when every fuel's figure is 0, `fillna(1)` makes the shares add up to the number of fuels; when some figure is not 0 (figures that cancel), that share is infinite and the shares have no finite sum |
| Co2Imputation.SharesSumToOne | src/data_cleaning.py:320-325 | the corrected shares of any plant-month add up to 1 |
| Co2Imputation.ZeroFuelMixAddsFactors | src/data_cleaning.py:320-334 | for two fuels with zero fuel use, the source's weighted factor is the sum of the two factors (0.13) |
| Co2Imputation.ZeroFuelMixAveragesFactors | src/data_cleaning.py:320-334 | with the corrected shares, the same plant-month gets the mean of the two factors (0.065) |
| Co2Imputation.ShareNonNegative | src/data_cleaning.py:323 | with non-negative fuel figures no share is negative |
| Co2Imputation.WeightedEfBetween | src/data_cleaning.py:320-334 | the corrected weighted factor (shares that add up to 1): with non-negative fuel figures and every fuel's factor in [lo, hi], it exists and is in [lo, hi] |
| Co2Imputation.AsWrittenAgreesWhereFuelBurned | src/data_cleaning.py:320-334 | where the plant-month burned fuel, the source's weighted factor is a finite number and equals the corrected one |
| Co2Imputation.WeightedEfAsWrittenBetween | src/data_cleaning.py:320-334 | the source's own weighted factor: where the plant-month burned fuel, it is a number in [lo, hi] |
| Co2Imputation.CancellingMixHasNoFactor | src/data_cleaning.py:320-334 | a plant-month whose fuel figures cancel to a zero total, with a factor other than 0 for a fuel whose figure is not 0, gets an infinite or NaN factor |
| Co2Imputation.MarkMissingCo2 | src/data_cleaning.py:275-279 | every row of the table, in place, is its pre-step result |
| Co2Imputation.FillFromFuelTypes | src/data_cleaning.py:281-306 | every row, in place, is its round-one result |
| Co2Imputation.FillFromFuelMix | src/data_cleaning.py:308-346 | every row, in place, is its round-two result: heat × the weighted factor with the source's `fillna(1)` shares, written where it is a number |
| Co2Imputation.MergeFuelTypes | src/data_cleaning.py:349 | every row, in place, carries its unit's fuel type |
| Co2Imputation.FillCemsMissingCo2 | src/data_cleaning.py:272-351 | every row of the table, in place, is the pre-step, both rounds (round two with the source's shares) and the merge applied to its old value |
| Co2Imputation.FillChangesOnlyCo2AndFuelType | src/data_cleaning.py:272-351 | the fill changes no column other than CO2 and the fuel type |
| Co2Imputation.FillKeepsReportedCo2 | src/data_cleaning.py:276-279 | a reported value that the pre-step does not mark missing is never overwritten |
| Co2Imputation.NullWithoutHeatBecomesZero | src/data_cleaning.py:276-279 | a null value without heat input ends as 0 |
| Co2Imputation.FilledByFuelType | src/data_cleaning.py:253-264 | a missing value of a typed unit becomes heat × the fuel's factor, or heat × the geothermal factor when the fuel has none |
| Co2Imputation.FilledByFuelMix | src/data_cleaning.py:320-346 | a missing value of an untyped unit becomes heat × its plant-month's weighted factor with the source's shares, and stays missing where that product is not a number |
| Co2Imputation.FilledByFuelMixWhereFuelBurned | src/data_cleaning.py:320-346 | where the plant-month burned fuel, that value is heat × the corrected weighted factor |
| Co2Imputation.StillMissingExactly | src/data_cleaning.py:272-351 | a value stays missing exactly when it was marked missing and its round gave no number |
| Co2Imputation.DropUnitsWithMissingCo2 | src/data_cleaning.py:530-532 | no kept row has null CO2, and a row is kept exactly when no row of its unit has null CO2 |
| Geothermal.PlantGeotype | src/data_cleaning.py:163-165 | the EPA geotype merged onto a plant: one the table lists for it; null exactly when it lists none |
| Geothermal.GeoKeys | src/data_cleaning.py:159 | a key is listed exactly when some geothermal row carries it, and only once |
| Geothermal.SummedGeoRows | src/data_cleaning.py:159-165 | every key of the input has exactly one row, carrying the key's summed heat input and its plant's EPA geotype |
| Geothermal.GeoInEia | src/data_cleaning.py:158-165 | geothermal fuel summed per key: every key with a positive total has exactly one row, no other key has one, and each row carries its plant's EPA geotype |
| Geothermal.ApplyRule | src/data_cleaning.py:172-188 | one masked assignment changes at most the geotype column |
| Geothermal.ApplyRules | src/data_cleaning.py:172-188 | the rules in sequence change at most the geotype column |
| Geothermal.ApplyRuleToAll | src/data_cleaning.py:174 | every row, in place, is one masked assignment applied to its old value |
| Geothermal.ReassignGeotypes | src/data_cleaning.py:172-188 | every row, in place, is the six rules applied to its old value in order |
| Geothermal.ReassignInCopy | src/data_cleaning.py:172-188 | the summed rows with all six rules applied to each, in order |
| Geothermal.ApplyRulesInOrder | src/data_cleaning.py:172-188 | the rule list applies the six assignments in the source's order |
| Geothermal.BinaryTurbineEndsBinary | src/data_cleaning.py:174-187 | a binary-turbine row with geotype F, S, B or none ends as B |
| Geothermal.SteamTurbineNeverBinary | src/data_cleaning.py:176-188 | a steam-turbine row never ends as B; one with B or no geotype ends as F; any other is unchanged |
| Geothermal.OtherPrimeMoversUnchanged | src/data_cleaning.py:172-188 | rows of other prime movers keep their geotype |
| Geothermal.MultiTypeRulesAreRedundant | src/data_cleaning.py:167-184 | the two multi-type rules change nothing the general rules would not |
| Geothermal.TonsPerMmbtu | src/data_cleaning.py:197-203 | a geotype's factor in tons: present exactly when the geotype is listed; it is the pound figure / 2000 |
| Geothermal.FuelFractionsSumToOne | src/data_cleaning.py:190-193 | the fuel fractions of a plant-month with heat input add up to 1 |
| Geothermal.WeightedGeoEfBetween | src/data_cleaning.py:195-208 | when every row's factor is in [lo, hi] lb/mmbtu, the weighted factor is in [lo/2000, hi/2000] tons |
| Geothermal.GeothermalEmissionFactors | src/data_cleaning.py:207-230 | keys are the EIA plant-months plus every month of EPA plants missing from EIA; weighted factor for the former, geotype factor for the latter |
| Geothermal.ReassignedAll | src/data_cleaning.py:172-188 | row by row, the re-assigned table |
| Geothermal.CalculateGeothermalEmissionFactors | src/data_cleaning.py:146-234 | the factors of the re-assigned, summed geothermal table |
| CleanCemsPipeline.FillAll | src/data_cleaning.py:528 | row by row, the filled table (round two with the source's shares) |
| CleanCemsPipeline.CleanCems | src/data_cleaning.py:505-538 | the cleaned table, filled with the source's shares; every row has CO2, a reporting label, and a grid-connected plant |
| CleanCemsPipeline.GridStageClean | src/data_cleaning.py:512-516 | after the two plant filters every row is of a grid-connected plant |
| CleanCemsPipeline.LabelStageClean | src/data_cleaning.py:521-522 | labelling keeps that and gives every row a reporting label |
| CleanCemsPipeline.FillStageClean | src/data_cleaning.py:527-528 | the fill keeps both |
| CleanCemsPipeline.CleanedRowsAreLabelledAndGridConnected | src/data_cleaning.py:505-538 | after `clean_cems` no row has null CO2, every row is labelled, and every plant is grid connected |
| FuelCascade.WithFuelMmbtu | src/data_cleaning.py:919-921 | the heat column is units × mmbtu per unit, null when either is null; nothing else changes |
| FuelCascade.AddFuelConsumedMmbtu | src/data_cleaning.py:919-921 | the caller's boiler-fuel table gains the heat column in place |
| FuelCascade.FuelCodesOf | src/data_cleaning.py:946-951 | the pivot's columns: every fuel of the table, once |
| FuelCascade.IdxMaxAtLeast | src/data_cleaning.py:893-899 | null exactly when no column reaches the threshold; otherwise the first column with the largest value that does |
| FuelCascade.PrimaryFuelOf | src/data_cleaning.py:893-899 | "unknown" when no fuel reaches the threshold, else a fuel that does with the largest proportion |
| FuelCascade.BurningBoilerMonths | src/data_cleaning.py:988-989 | the pivot rows: each boiler-month of the table with non-zero heat, once |
| FuelCascade.PrimaryFuelBf | src/data_cleaning.py:853-901 | one primary-fuel row for each burning boiler-month and no other; no boiler-month twice |
| FuelCascade.ProportionsSumToOne | src/data_cleaning.py:982-996 | the proportions of a burning boiler-month add up to 1 |
| FuelCascade.FuelHeatsPartition | src/data_cleaning.py:982-983 | the pivot's `total` column is the sum of its fuel columns |
| FuelCascade.AbsentFuelHasNoHeat | src/data_cleaning.py:985-986 | a fuel the boiler did not burn has 0 in its pivot cell |
| FuelCascade.DominantFuelIsPrimary | src/data_cleaning.py:893-899 | with a threshold above 1/2, a fuel reaching it is the primary fuel |
| FuelCascade.ReachingFuelIsColumn | src/data_cleaning.py:893-895 | a fuel whose proportion reaches a positive threshold is a pivot column |
| FuelCascade.NoTwoDominantFuels | src/data_cleaning.py:893-897 | two fuels cannot both reach a threshold above 1/2 |
| FuelCascade.PlantMonthFuels | src/data_cleaning.py:1019-1022 | the distinct primary fuels of a plant-month's boilers |
| FuelCascade.SingleFuel | src/data_cleaning.py:1010-1040 | a fuel exactly when all boilers of the plant-month share one primary fuel, and then it is that fuel |
| FuelCascade.PlantUnitIds | src/data_cleaning.py:765-768 | each unit id of the plant, once |
| FuelCascade.PlantBoilerIds | src/data_cleaning.py:770-775 | each boiler id of the plant, once |
| FuelCascade.BoilerMatchIff | src/data_cleaning.py:1043-1063 | the match holds exactly when the plant has boiler rows and its unit-id set equals its boiler-id set |
| FuelCascade.BoilerFuel | src/data_cleaning.py:1083-1084 | the primary fuel of a boiler-month row; null exactly when there is none; with unique boiler-months, that row's fuel |
| FuelCascade.AssignBoilerFuelType | src/data_cleaning.py:1066-1090 | "unknown" without a match; otherwise the fuel of the unit's boiler-month, or "unknown" |
| FuelCascade.CrosswalkMatch | src/data_cleaning.py:1147-1194 | "unknown", or the primary fuel of a boiler the unit's crosswalk row names |
| FuelCascade.CrosswalkMatchWithoutRow | src/data_cleaning.py:1158-1193 | a unit with no crosswalk row gets "unknown" |
| FuelCascade.CrosswalkMatchNullBoiler | src/data_cleaning.py:1162-1164 | a first crosswalk row with a null boiler gives "unknown" without trying the generator |
| FuelCascade.CrosswalkMatchBoilerFirst | src/data_cleaning.py:1158-1190 | the boiler's fuel when it has a row for the month; else the generator path |
| Common.FirstIsEarliest | src/data_cleaning.py:1159-1160 | `.iloc[0]` of a query is the row at the first matching index |
| FuelCascade.FuelCodeLookup | src/data_cleaning.py:1197-1224 | at each level, the fuel of the first crosswalk row that matches (`iloc[0]`), which may be null; "unknown" (unit level) or "" (plant level) when no row matches |
| FuelCascade.EpaUnitList | src/data_cleaning.py:823-850 | each (plant, unit, month) of the CEMS table, once |
| FuelCascade.UnknownIffNoStageAnswers | src/data_cleaning.py:756-815 | a unit ends "unknown" exactly when no stage answers with a fuel |
| FuelCascade.FirstKnownStageWins | src/data_cleaning.py:756-815 | the first stage that answers with a fuel decides the unit's fuel |
| FuelCascade.AssignedFuelIsKept | src/data_cleaning.py:785-812 | later stages never overwrite an assigned fuel |
| FuelCascade.ApplyFourStages | src/data_cleaning.py:753-812 | the four stages as four `update` steps in order |
| FuelCascade.MonthlyFuelTypes | src/data_cleaning.py:728-820 | the heat column is added to the caller's table; each unit-month gets its cascade result |
| FuelCascade.RunStages | src/data_cleaning.py:753-812 | the stages rewrite a fresh unit table so that each unit ends with its cascade result |
| FuelCascade.StagesOneByOne | src/data_cleaning.py:785-812 | running the row-level stages one after the other applies the stage answers in order |
| GrossToNet.EiaNetGeneration | src/data_cleaning.py:583-586 | null exactly when the plant-month has no CEMS-sourced row with net generation; otherwise the sum over those rows |
| GrossToNet.PlantMonths | src/data_cleaning.py:589 | each plant-month of the CEMS table, once |
| GrossToNet.MonthlyGtnRatios | src/data_cleaning.py:588-595 | one row per CEMS plant-month, no plant-month twice, each with its gross total, net total and ratio |
| GrossToNet.MonthlyGrossTotalsCoverCems | src/data_cleaning.py:588-589 | the plant-month gross totals add up to the table's gross generation |
| GrossToNet.MonthlyRatioMissingIff | src/data_cleaning.py:591-595 | the ratio is NaN exactly when there is no EIA net or both totals are 0; a finite ratio × gross = net |
| GrossToNet.RegressionRows | src/data_cleaning.py:597-600 | a month enters the regression exactly when it is the plant's, finite, and in [0.5, 1.5] |
| GrossToNet.FittedSample | src/data_cleaning.py:549-562 | the refit uses the months not flagged; when the outlier test raises, all months |
| GrossToNet.SlopeFromPlausibleMonths | src/data_cleaning.py:597-608 | an accepted slope comes from a fit with adjusted R² ≥ 0.8 on the plant's in-range months |
| GrossToNet.FinalRatio | src/data_cleaning.py:614-615 | a present monthly ratio is kept whatever its value; a missing one is the accepted slope, or NaN when there is none |
| GrossToNet.NetGeneration | src/data_cleaning.py:619-623 | gross × ratio where finite; stays gross where the ratio is NaN (`update` skips NaN) |
| GrossToNet.NetGenMethodAsWritten | src/data_cleaning.py:610-626 | as written: "net_equals_gross" only for a plant-month missing from the monthly table; "annual_regression" exactly when the ratio is NaN |
| GrossToNet.NetGenMethod | src/data_cleaning.py:610-626 | intended: "net_equals_gross" exactly when no ratio results; "annual_regression" exactly when the slope fills it; "monthly_ratio" exactly when the month has one |
| GrossToNet.ConvertWith | src/data_cleaning.py:570-631 | one output row per input hour, with the hour's own columns unchanged |
| GrossToNet.ConvertGrossToNetGeneration | src/data_cleaning.py:570-631 | the same, with the intended labelling |
| GrossToNet.HourFindsItsMonth | src/data_cleaning.py:617-618 | every hour merges with its own plant-month's row |
| GrossToNet.ConvertedHour | src/data_cleaning.py:570-631 | an hour's ratio, net generation and label are those of its plant-month and its plant's slope |
| GrossToNet.LabelsMatchMethod | src/data_cleaning.py:610-626 | "monthly_ratio" exactly when EIA gives the plant-month a usable ratio; "net_equals_gross" exactly when the ratio is NaN, and then net = gross; "annual_regression" hours carry the slope |
| GrossToNet.AsWrittenNeverNetEqualsGross | src/data_cleaning.py:617-626 | as written, no hour is ever labelled "net_equals_gross" |
| GrossToNet.AsWrittenMislabelsDefault | src/data_cleaning.py:579-626 | an hour with 100 MWh gross and no EIA net: as written it is tagged "annual_regression" with a NaN ratio and net 100; intended, it is tagged "net_equals_gross" |
| Lookups.EiaPlantIdFor | src/data_cleaning.py:23-41 | the EPA id exactly when no crosswalk row renumbers the unit; otherwise the EIA id of such a row |
| Lookups.CrosswalkEpaEiaPlantIds | src/data_cleaning.py:11-44 | same rows in order, each with its EIA plant id filled |
| Lookups.CrosswalkWithoutRenumberingKeepsEpaIds | src/data_cleaning.py:25-38 | a crosswalk that renumbers nothing gives every row its EPA id |
| Lookups.UnitGenerators | src/data_cleaning.py:353-382 | the generator ids of the unit's crosswalk rows; a single null when it has none |
| Lookups.GeneratorMonthsOf | src/data_cleaning.py:418-427 | the generator-months a CEMS hour stands for |
| Lookups.GeneratorMonthsInCems | src/data_cleaning.py:415-428 | exactly the generator-months of some CEMS hour |
| Lookups.IdentifyEmissionsDataSource | src/data_cleaning.py:409-435 | one output row per allocated row, with plant, month and net generation kept |
| Lookups.DataSourceIsCemsIff | src/data_cleaning.py:426-433 | tagged "cems" exactly when the generator-month is reported to CEMS, and "eia_only" otherwise |
| Lookups.MapName | src/data_cleaning.py:475-477 | `Series.map(dict)`: a code exactly for a listed name, and that name's code |
| Lookups.FilledBaCode | src/data_cleaning.py:474-477 | EIA's code; else the code of the BA name, then the utility name, then the transmission owner |
| Lookups.BaCode | src/data_cleaning.py:486-498 | never "None"; a manual correction decides the code, and a correction of "None" gives null; otherwise a present EIA code other than "None" is kept |
| Lookups.BaCodeFromNames | src/data_cleaning.py:474-477 | without an EIA code or correction, a code comes only from the utility table, by one of the three names |
| Lookups.AssignBaCodeToPlant | src/data_cleaning.py:500-503 | the BA code and state of the plant's first EIA-860 row; nulls for a plant not in EIA-860; never "None" |
| Lookups.ManualCorrectionWins | src/data_cleaning.py:486-498 | a manual correction decides a listed plant's BA code, whatever EIA reports |
| Lookups.GmtZone | src/data_cleaning.py:681-716 | `tz_to_gmt.get(tz, tz)`: the listed fixed-offset zone, any other tz unchanged |
| Lookups.GmtZoneIdempotent | src/data_cleaning.py:681-716 | the lookup applied twice equals once: no zone it produces is rewritten again |
| Lookups.EpaFuelCode | src/data_cleaning.py:1120-1138 | `map(dict)`: the code of a listed CAMD name, null otherwise |
| Lookups.CamdNameTablesDisagree | src/data_cleaning.py:1120-1138 | the two CAMD name tables disagree: Coal is CBL in the crosswalk table but SUB in the unit fuel-type table, Process Gas is OG there but PRG here, and Coal Refuse is WC there but is left untranslated here |
| Lookups.Eia930Category | src/data_cleaning.py:1278-1320 | a category exactly for a listed code, always one of the seven EIA-930 categories |
| Lookups.EiaCategoriesAreTheSeven | src/data_cleaning.py:1282-1319 | every category of the map is one of the seven EIA-930 categories |
| Lookups.CoalCodes | src/data_cleaning.py:1282-1319 | a code maps to coal exactly when it is BIT, SUB, LIG, RC, PC, WC or SC |
| Lookups.CrosswalkCodesCategorised | src/data_cleaning.py:1120-1138 | every code of the crosswalk table has an EIA-930 category except blended coal, CBL |
| Lookups.CrosswalkCodeListed | src/data_cleaning.py:1120-1138 | a crosswalk name's code has an EIA-930 category exactly when the name is not Coal |
| OutputData.UnitOf | src/output_data.py:122-127 | no unit exactly when neither "lb" nor "mmbtu" is a token; "lb" wins over "mmbtu" |
| OutputData.FirstUnitFrom | src/output_data.py:122-127 | the first unit, in the conversion table's order, that is a token of the name; none exactly when no later unit is |
| OutputData.Scaled | src/output_data.py:133 | every value × the factor; nulls stay null |
| OutputData.ConvertColumn | src/output_data.py:122-133 | a column without a unit token is unchanged; otherwise renamed by `str.replace` of the unit and scaled by its factor |
| OutputData.ConvertResults | src/output_data.py:109-134 | a fresh table, with the input untouched, whose every column is the converted input column |
| OutputData.ConvertedTotalScales | src/output_data.py:130-133 | a converted column's total is the original total × the factor |
| OutputData.ScaledSum | src/output_data.py:133 | scaling every value of a column scales its skip-null total by the same factor |
| OutputData.ConvertedValuesRecoverOriginals | src/output_data.py:133 | dividing a converted value by the factor gives back the original |
| OutputData.BaRate | src/output_data.py:301-313 | null exactly for x/0 with x ≠ 0 (±inf); rate × net = mass where net ≠ 0; 0 for 0/0 and nulls |
| OutputData.AverageRate | src/output_data.py:147-163 | rate × net = mass where net ≠ 0; 0 otherwise, inf included |
| OutputData.AverageRateOfMeans | src/output_data.py:142-163 | dividing mass and generation by the same count leaves the rate unchanged |
| OutputData.Categories | src/output_data.py:139-141 | the group-by keys: each fuel category once |
| OutputData.Rates | src/output_data.py:147-163 | twelve rates, one for each (mass, generation) pair |
| OutputData.GeneratedAverages | src/output_data.py:137-170 | one summed row per category in group-by order, then a final "total" row |
| OutputData.TotalRateIsPooledRate | src/output_data.py:142-163 | the total row's rate is the pooled rate of the whole table (the mean, not the sum) |
| OutputData.CategoryRateIsItsOwn | src/output_data.py:147-163 | a category's rate is its total mass over its total generation, 0 where that is 0 |
| OutputData.Plants | src/output_data.py:98 | each plant of the table once, in ascending order (the sorted keys of `groupby`) |
| OutputData.AnnualPlantData | src/output_data.py:96-98 | one row per plant, in ascending plant order, holding its summed net generation |
| OutputData.OutputPlantData | src/output_data.py:62-106 | nothing when skipped or for an unknown resolution; hourly: ids > 900000 synthetic, ids < 900000 CEMS; monthly as is; annual summed per plant, in ascending plant order |
| OutputData.HourlyRoutingPartition | src/output_data.py:70-86 | the two hourly tables plus the rows of plant 900000 are the input table, each row once |
| OutputData.AnnualTotalsPreserved | src/output_data.py:96-106 | the annual table keeps the total generation |
| OutputData.DropDuplicates | src/output_data.py:208-217 | kept rows come from the input, no key twice, and every input key is kept |
| OutputData.DropDuplicatesKeepsFirst | src/output_data.py:208-217 | every kept row is the first row of its key |
| OutputData.WritePlantMetadata | src/output_data.py:173-231 | CEMS, then partial CEMS, then EIA metadata; the source is one of the three labels |
| OutputData.CemsMetadataFirstHourPerKey | src/output_data.py:190-211 | one "CEMS" row per (plant, subplant, month), made from its first hour |
| OutputData.EiaMetadataOnePerPlantMonth | src/output_data.py:194-217 | one "EIA" row per (plant, month), without a subplant, whose profile source is its net generation method |

## Left out

- The `level='plant'` branches: `primary_fuel_bf_eia923`, `fuel_proportions_bf_eia923` and
  `fuel_code_lookup` at plant level. `monthly_fuel_types` only calls them at boiler or unit level.
  The plant-level "" fallback of `fuel_code_lookup` is modelled.
- `src/download_data.py`, `src/test_dask.py` and `test/test_logging.py`: network downloads, a Dask
  experiment and logging configuration.
- Loading tables from CSV, SQLite, `load_data` and `distribute_eia923`. This includes
  `create_monthly_gens_records`: the months of missing geothermal plants are a parameter. All tables
  are parameters.
- `to_csv`, `output_to_results`, `output_intermediate_data`, `output_data_quality_metrics`,
  `column_checks` and `write_power_sector_results`: file output. Only the tables handed to the writer
  are modelled. From `write_power_sector_results`, only `add_generated_emission_rate_columns` is
  modelled, as `BaRate`.
- FuelCascade.MonthlyFuelTypes: a stage that starts with no "unknown" unit is not modelled as a
  failure. The source assigns `missing.apply(f, axis=1)` to one column (src/data_cleaning.py:785,
  798, 808). On an empty `missing`, pandas' probe call of f raises KeyError at `row['plant_id_eia']`
  (src/data_cleaning.py:1073, 1154, 1206), so `apply` returns the whole empty frame. Assigning that
  frame to one column raises ValueError in pandas releases that check the width. The source then
  fails whenever every unit is resolved by stage 1, 2 or 3. The model returns the complete table.
- FuelCascade.RunStages: the same empty-stage case runs as a stage that changes nothing.
- GrossToNet.ConvertWith: `cems['net_generation_mwh'] = cems['gross_generation_mwh']`
  (src/data_cleaning.py:581) writes to the caller's frame before the merge at
  src/data_cleaning.py:618 rebinds `cems`. The caller's table thus gains a net generation column
  equal to gross. The model returns the converted table only and leaves the caller's table as it was.
- GrossToNet.ConvertGrossToNetGeneration: it runs GrossToNet.ConvertWith, so the caller's table
  likewise keeps the net generation column that src/data_cleaning.py:581 writes into it.
- GrossToNet.ModelGrossToNet: the statsmodels OLS fit and its Bonferroni outlier test are function
  parameters (slope, R², adjusted R², count). The refit-on-`ValueError` fallback and the adjusted R²
  gate are modelled. A NaN adjusted R² is a value below 0.8.
- GrossToNet.RegressionSlope: a plant's `groupby().apply` runs only when the plant has at least one
  in-range month. The pandas shape of an empty apply result is not modelled.
- The time-zone conversion in `add_report_date`, its per-timezone loop, and the month truncation.
  Report dates are month keys. Only the `tz_to_gmt.get(tz, tz)` lookup is modelled.
- IEEE floating point: rounding and signed zeros are not modelled, and reals are exact. NaN and
  ±inf are modelled (`Num`) where the source divides: the gross-to-net ratio and the round-two
  shares. Elsewhere a NaN is a null.
- Co2Imputation.FillFromFuelMix: where round two's estimate is ±inf (a plant-month whose fuel
  figures cancel to a zero total), `cems.update` writes the infinity. The model's CO2 column holds
  reals only, so that value stays missing. `clean_cems` then drops the unit, where the source keeps
  it with an infinite value.
- Co2Imputation.FilledByFuelMix: the same ±inf estimate leaves the value missing (see
  Co2Imputation.FillFromFuelMix).
- Co2Imputation.FillCemsMissingCo2: round two runs Co2Imputation.FillFromFuelMix, so a ±inf
  estimate leaves the value missing where the source writes the infinity.
- Co2Imputation.StillMissingExactly: a value whose round-two estimate is ±inf counts as still
  missing, where the source holds the infinity (see Co2Imputation.FillFromFuelMix).
- CleanCemsPipeline.FillAll: the same ±inf estimate stays missing, so the unit is dropped where the
  source keeps it (see Co2Imputation.FillFromFuelMix).
- Co2Imputation.WeightedEfBetween: the bound is proved of the corrected factor. The source's own
  factor meets it only where the plant-month burned fuel (Co2Imputation.WeightedEfAsWrittenBetween).
  With zero fuel figures it can exceed hi: 0.13 against 0.08 in Co2Imputation.ZeroFuelMixAddsFactors.
- Merge duplication: a left merge with a key that matches several rows duplicates rows. Where the
  source merges on a key it expects to be unique, the model takes the first matching row.
  `crosswalk_epa_eia_plant_ids` (src/data_cleaning.py:24-35) and `monthly_gtn_ratio` are such
  merges. The generator-level crosswalk in `identify_emissions_data_source` keeps every match.
- Geothermal.WeightedGeoEf: the fuel fractions are merged back on (plant, month, geotype)
  (src/data_cleaning.py:191-193). If two prime movers of one plant-month carry the same geotype, the
  source pairs each of their rows with both fractions, so those rows count twice in the weighted
  sum. The model weights each row by its own fraction, once. It agrees with the source when the
  geotypes of a plant-month differ. The ST/BT re-assignments at src/data_cleaning.py:172-188 make
  that the usual case.
- Geothermal.WeightedGeoEfBetween: the bound is proved of the model's weighting, where the weights
  of a plant-month add up to 1. With the source's double pairing (see Geothermal.WeightedGeoEf) the
  weights of two same-geotype prime movers count twice, and the factor can exceed hi/2000.
- Geothermal.CalculateGeothermalEmissionFactors: it inherits the two gaps of its parts. Same-geotype
  prime movers of one plant-month are weighted once (see Geothermal.WeightedGeoEf). A plant with
  several EPA geotype rows takes its first row (see Geothermal.GeothermalEmissionFactors).
- Geothermal.GeothermalEmissionFactors: the EPA geotype table is merged on the plant id
  (src/data_cleaning.py:165), and the result onto the CEMS rows on (plant, month)
  (src/data_cleaning.py:258). The model assumes one geotype row per plant, so each plant-month has
  one factor. A plant listed twice would duplicate rows in the source.
- Co2Imputation.Co2Inputs: the plant-month geothermal factors are a parameter (`geoEfs`). Wiring
  them to Geothermal.GeothermalEmissionFactors, as src/data_cleaning.py:255 does, is left to the
  caller. The database read inside that function is file input.
- Code that cannot run as written:
  - `fill_missing_co2` and `calculate_heat_input_weighted_ef` call `get_emissions_factors`, which is
    undefined.
  - `epa_unit_list` calls `add_report_date` with two arguments, but it takes one. `epa_unit_list`
    is modelled as intended: distinct (plant, unit, month) keys.
  - `report_date` is a '%Y-%m' string in one place and a datetime in another. The model uses one
    month key.
  - The self-`fillna` in `get_epa_eia_crosswalk` does nothing.
  - `clean_eia_930` is a stub.
- `print` progress counts.
- OutputData.ConvertResults: two columns that share a name after renaming are not merged, and
  pandas' label-based assignment to a duplicated column is not modelled. Each column is converted
  on its own.
- OutputData.WritePlantMetadata: the columns added to the caller's three frames, and the returned
  frames with the metadata columns dropped, are not modelled. Only the metadata table is modelled.
- OutputData.OutputPlantData: a plant-data row carries one numeric column, net generation. The
  other numeric columns are summed the same way.
- OutputData.GeneratedAverages: the rate columns are indexed 0 to 11 in the source's loop order.
  Their names are not spelled out.

## Findings

| source | as written | input that shows it | evidently intended | confidence | as-written member | corrected member |
|---|---|---|---|---|---|---|
| src/data_cleaning.py:323-325 | `fillna(1)` turns each 0/0 fuel share into 1, so a plant-month that burned no fuel for electricity gets a weighted factor equal to the sum of its fuels' factors | one plant-month with NG (factor 0.05) and DFO (factor 0.08), both with 0 fuel for electricity: the weighted factor is 0.13 | shares that add up to 1, for example equal shares giving 0.065 | not executed | Co2Imputation.ZeroFuelMixAddsFactors | Co2Imputation.ZeroFuelMixAveragesFactors |
| src/data_cleaning.py:610-626 | every plant-month with a null ratio is tagged "annual_regression", even when no slope was accepted and net stays equal to gross; "net_equals_gross" is never written | one plant-month with 100 MWh gross and no EIA net rows: tag "annual_regression", ratio NaN, net 100 | "net_equals_gross" for hours left on the 1:1 default | not executed | GrossToNet.AsWrittenMislabelsDefault | GrossToNet.LabelsMatchMethod |
