/** Whole-plant and whole-group filters on the hourly CEMS table and the reporting
    status label (src/data_cleaning.py: remove_non_grid_connected_plants,
    remove_heating_only_plants, remove_cems_with_zero_monthly_emissions,
    determine_cems_reporting_status). */
module Filters {
  import opened Common
  import opened Text
  import opened Tables

  // ---------------------------------------------------------------- grouping helpers

  /** The row test "belongs to this plant". */
  function PlantIs(plant: int): CemsRow -> bool
  {
    (r: CemsRow) => r.plantIdEia == plant
  }

  /** The row test that applies a plant-level decision to each row. */
  function PlantTest(keep: int -> bool): CemsRow -> bool
  {
    (r: CemsRow) => keep(r.plantIdEia)
  }

  /** The rows of one plant (`groupby('plant_id_eia')`). */
  function PlantRows(rows: seq<CemsRow>, plant: int): seq<CemsRow>
  {
    Filter(rows, PlantIs(plant))
  }

  /** Keep the rows whose plant passes `keep`. */
  function FilterPlants(rows: seq<CemsRow>, keep: int -> bool): seq<CemsRow>
  {
    Filter(rows, PlantTest(keep))
  }

  /** A filter that decides plant by plant keeps or drops each plant's rows as a block. */
  lemma FilterPlantsKeepsWholePlants(rows: seq<CemsRow>, keep: int -> bool, plant: int)
    ensures PlantRows(FilterPlants(rows, keep), plant) == if keep(plant) then PlantRows(rows, plant) else []
  {
    FilterFilter(rows, PlantTest(keep), PlantIs(plant));
    if keep(plant) {
      FilterCongruent(rows, And(PlantTest(keep), PlantIs(plant)), PlantIs(plant));
    } else {
      FilterNone(rows, And(PlantTest(keep), PlantIs(plant)));
    }
  }

  /** Two plant filters in a row are one filter by both decisions. */
  lemma FilterPlantsTwice(rows: seq<CemsRow>, first: int -> bool, second: int -> bool, both: int -> bool)
    requires forall r :: r in rows ==> both(r.plantIdEia) == (first(r.plantIdEia) && second(r.plantIdEia))
    ensures FilterPlants(FilterPlants(rows, first), second) == FilterPlants(rows, both)
  {
    FilterFilter(rows, PlantTest(first), PlantTest(second));
    FilterCongruent(rows, And(PlantTest(first), PlantTest(second)), PlantTest(both));
  }

  // ---------------------------------------------------------------- non-grid-connected plants

  /** The regular expression `[8][8][0-9]{4}$` matches s starting at position i: two eights,
      four digits, then the end of the string. */
  predicate SyntheticPatternAt(s: string, i: nat)
  {
    i + 6 == |s| && s[i] == '8' && s[i + 1] == '8'
    && IsDigit(s[i + 2]) && IsDigit(s[i + 3]) && IsDigit(s[i + 4]) && IsDigit(s[i + 5])
  }

  /** `re.search`: the pattern is tried at every start position from `from` onwards. */
  predicate SearchFrom(s: string, from: nat)
    decreases |s| - from
  {
    from <= |s| && (SyntheticPatternAt(s, from) || SearchFrom(s, from + 1))
  }

  /** `df['plant_id_eia'].astype(str).str.contains(r'[8][8][0-9]{4}$')`. */
  predicate HasSyntheticIdPattern(plantId: int)
  {
    SearchFrom(IntToString(plantId), 0)
  }

  /** A plant that the grid filter removes: listed as not grid connected, or with a synthetic id. */
  predicate NotGridConnected(plantId: int, ngcPlants: seq<int>)
  {
    plantId in ngcPlants || HasSyntheticIdPattern(plantId)
  }

  function Abs(i: int): nat
  {
    if i < 0 then -i else i
  }

  /** The search succeeds exactly when the pattern sits at the last six characters. */
  lemma {:induction false} SearchIsSuffixTest(s: string, from: nat)
    requires from <= |s|
    ensures SearchFrom(s, from) <==> from + 6 <= |s| && SyntheticPatternAt(s, |s| - 6)
    decreases |s| - from
  {
    if from < |s| {
      SearchIsSuffixTest(s, from + 1);
    }
  }

  /** The fifth and sixth digits from the right of n, by repeated division. */
  lemma DigitsFourAndFive(n: nat)
    ensures DigitFromRight(n, 4) == n / 10 / 10 / 10 / 10 % 10
    ensures DigitFromRight(n, 5) == n / 10 / 10 / 10 / 10 / 10 % 10
  {
    var n1 := n / 10;
    var n2 := n1 / 10;
    var n3 := n2 / 10;
    var n4 := n3 / 10;
    var n5 := n4 / 10;
    assert DigitFromRight(n4, 0) == n4 % 10;
    assert DigitFromRight(n3, 1) == DigitFromRight(n4, 0);
    assert DigitFromRight(n2, 2) == DigitFromRight(n3, 1);
    assert DigitFromRight(n1, 3) == DigitFromRight(n2, 2);
    assert DigitFromRight(n, 4) == DigitFromRight(n1, 3);
    assert DigitFromRight(n5, 0) == n5 % 10;
    assert DigitFromRight(n4, 1) == DigitFromRight(n5, 0);
    assert DigitFromRight(n3, 2) == DigitFromRight(n4, 1);
    assert DigitFromRight(n2, 3) == DigitFromRight(n3, 2);
    assert DigitFromRight(n1, 4) == DigitFromRight(n2, 3);
    assert DigitFromRight(n, 5) == DigitFromRight(n1, 4);
  }

  /** A number written as a multiple of one million plus a remainder below one million. */
  lemma MillionRemainder(n: nat, q: nat, rest: nat)
    requires n == 1000000 * q + rest && rest < 1000000
    ensures n % 1000000 == rest
  {
  }

  /** The last two of six trailing digits are eights exactly when n mod 10^6 lies in [880000, 889999]. */
  lemma EightEightDigits(n: nat)
    ensures DigitFromRight(n, 5) == 8 && DigitFromRight(n, 4) == 8 <==> 880000 <= n % 1000000 <= 889999
  {
    DigitsFourAndFive(n);
    var n1 := n / 10;
    var n2 := n1 / 10;
    var n3 := n2 / 10;
    var n4 := n3 / 10;
    var n5 := n4 / 10;
    var n6 := n5 / 10;
    var d0, d1, d2, d3, d4, d5 := n % 10, n1 % 10, n2 % 10, n3 % 10, n4 % 10, n5 % 10;
    assert n == 10 * n1 + d0;
    assert n1 == 10 * n2 + d1;
    assert n2 == 10 * n3 + d2;
    assert n3 == 10 * n4 + d3;
    assert n4 == 10 * n5 + d4;
    assert n5 == 10 * n6 + d5;
    var low := 1000 * d3 + 100 * d2 + 10 * d1 + d0;
    var rest := 100000 * d5 + 10000 * d4 + low;
    assert n == 1000000 * n6 + rest;
    MillionRemainder(n, n6, rest);
  }

  /** The decimal string of a non-negative id ends in "88" and four digits exactly when the id
      modulo one million lies in [880000, 889999]. */
  lemma SyntheticPatternOfNat(n: nat)
    ensures SearchFrom(DecimalString(n), 0) <==> 880000 <= n % 1000000 <= 889999
  {
    var s := DecimalString(n);
    SearchIsSuffixTest(s, 0);
    SixDigits(n);
    if n >= 100000 {
      DecimalDigitAt(n, 5);
      DecimalDigitAt(n, 4);
      assert s[|s| - 6] == DigitChar(DigitFromRight(n, 5));
      assert s[|s| - 5] == DigitChar(DigitFromRight(n, 4));
      EightEightDigits(n);
    }
  }

  /** The synthetic-id test on any integer id is an arithmetic test on its absolute value. */
  lemma SyntheticIdArithmetic(plantId: int)
    ensures HasSyntheticIdPattern(plantId) <==> 880000 <= Abs(plantId) % 1000000 <= 889999
  {
    var n := Abs(plantId);
    var d := DecimalString(n);
    SyntheticPatternOfNat(n);
    SearchIsSuffixTest(d, 0);
    if plantId < 0 {
      var s := IntToString(plantId);
      assert s == "-" + d;
      SearchIsSuffixTest(s, 0);
      SixDigits(n);
      if |d| >= 6 {
        assert s[|s| - 6..] == d[|d| - 6..];
        assert SyntheticPatternAt(s, |s| - 6) <==> SyntheticPatternAt(d, |d| - 6);
      } else if |s| >= 6 {
        assert s[0] == '-';
      }
    }
  }

  /** The plant-level decision of the first pass: the id does not look synthetic. */
  function NotSynthetic(): int -> bool
  {
    p => !HasSyntheticIdPattern(p)
  }

  /** The plant-level decision of the second pass (`~isin(ngc_plants)`). */
  function NotListed(ngcPlants: seq<int>): int -> bool
  {
    p => p !in ngcPlants
  }

  /** The plant-level decision of the whole grid filter. */
  function GridConnected(ngcPlants: seq<int>): int -> bool
  {
    p => !NotGridConnected(p, ngcPlants)
  }

  /** remove_non_grid_connected_plants: first the synthetic-id rows, then the listed plants. */
  function RemoveNonGridConnectedPlants(rows: seq<CemsRow>, ngcPlants: seq<int>): seq<CemsRow>
  {
    FilterPlants(FilterPlants(rows, NotSynthetic()), NotListed(ngcPlants))
  }

  /** The two passes are one filter by plant, and a row survives exactly when its plant is not
      listed and its id modulo one million lies outside [880000, 889999]. */
  lemma NonGridFilterIsOnePlantFilter(rows: seq<CemsRow>, ngcPlants: seq<int>)
    ensures RemoveNonGridConnectedPlants(rows, ngcPlants) == FilterPlants(rows, GridConnected(ngcPlants))
    ensures forall r :: r in RemoveNonGridConnectedPlants(rows, ngcPlants) <==>
      r in rows && r.plantIdEia !in ngcPlants && !(880000 <= Abs(r.plantIdEia) % 1000000 <= 889999)
  {
    FilterPlantsTwice(rows, NotSynthetic(), NotListed(ngcPlants), GridConnected(ngcPlants));
    forall r | r in rows
      ensures HasSyntheticIdPattern(r.plantIdEia) <==> 880000 <= Abs(r.plantIdEia) % 1000000 <= 889999
    {
      SyntheticIdArithmetic(r.plantIdEia);
    }
  }

  // ---------------------------------------------------------------- heat-only plants

  /** Annual gross load of a plant (`groupby('plant_id_eia').sum()` skips nulls). */
  function GrossLoadTotal(plantRows: seq<CemsRow>): real
  {
    SumOf(plantRows, (r: CemsRow) => ValueOr0(r.grossLoadMw))
  }

  function SteamLoadTotal(plantRows: seq<CemsRow>): real
  {
    SumOf(plantRows, (r: CemsRow) => ValueOr0(r.steamLoad1000Lbs))
  }

  /** A plant that reports steam output but no electrical output over the year. */
  predicate HeatOnlyPlant(rows: seq<CemsRow>, plant: int)
  {
    GrossLoadTotal(PlantRows(rows, plant)) == 0.0 && SteamLoadTotal(PlantRows(rows, plant)) > 0.0
  }

  /** The plant-level decision of the heat-only filter over the table `rows`. */
  function NotHeatOnly(rows: seq<CemsRow>): int -> bool
  {
    p => !HeatOnlyPlant(rows, p)
  }

  /** remove_heating_only_plants. */
  function RemoveHeatingOnlyPlants(rows: seq<CemsRow>): seq<CemsRow>
  {
    FilterPlants(rows, NotHeatOnly(rows))
  }

  /** Every plant is kept or removed whole, and a removed plant is exactly one with zero
      total gross load and positive total steam load. */
  lemma HeatOnlyRemovesWholePlants(rows: seq<CemsRow>, plant: int)
    ensures PlantRows(RemoveHeatingOnlyPlants(rows), plant) ==
      if GrossLoadTotal(PlantRows(rows, plant)) == 0.0 && SteamLoadTotal(PlantRows(rows, plant)) > 0.0
      then [] else PlantRows(rows, plant)
  {
    FilterPlantsKeepsWholePlants(rows, NotHeatOnly(rows), plant);
  }

  /** Removing whole plants that pass `keep` leaves the heat-only test of every kept plant unchanged. */
  lemma HeatOnlyTestSurvivesPlantFilter(rows: seq<CemsRow>, keep: int -> bool, plant: int)
    requires keep(plant)
    ensures HeatOnlyPlant(FilterPlants(rows, keep), plant) == HeatOnlyPlant(rows, plant)
  {
    FilterPlantsKeepsWholePlants(rows, keep, plant);
  }

  /** Removing the heat-only plants a second time removes nothing more. */
  lemma HeatOnlyFilterIdempotent(rows: seq<CemsRow>)
    ensures RemoveHeatingOnlyPlants(RemoveHeatingOnlyPlants(rows)) == RemoveHeatingOnlyPlants(rows)
  {
    var once := RemoveHeatingOnlyPlants(rows);
    forall r | r in once ensures NotHeatOnly(once)(r.plantIdEia) {
      HeatOnlyTestSurvivesPlantFilter(rows, NotHeatOnly(rows), r.plantIdEia);
    }
    FilterKeepsAll(once, PlantTest(NotHeatOnly(once)));
  }

  /** The grid filter and the heat-only filter can be applied in either order. */
  lemma GridAndHeatOnlyFiltersCommute(rows: seq<CemsRow>, ngcPlants: seq<int>)
    ensures RemoveHeatingOnlyPlants(RemoveNonGridConnectedPlants(rows, ngcPlants))
         == RemoveNonGridConnectedPlants(RemoveHeatingOnlyPlants(rows), ngcPlants)
  {
    var grid := GridConnected(ngcPlants);
    var g := FilterPlants(rows, grid);
    NonGridFilterIsOnePlantFilter(rows, ngcPlants);
    NonGridFilterIsOnePlantFilter(RemoveHeatingOnlyPlants(rows), ngcPlants);
    var both := (p: int) => grid(p) && !HeatOnlyPlant(rows, p);
    forall r | r in rows
      ensures both(r.plantIdEia) == (grid(r.plantIdEia) && NotHeatOnly(g)(r.plantIdEia))
    {
      if grid(r.plantIdEia) {
        HeatOnlyTestSurvivesPlantFilter(rows, grid, r.plantIdEia);
      }
    }
    FilterPlantsTwice(rows, grid, NotHeatOnly(g), both);
    FilterPlantsTwice(rows, NotHeatOnly(rows), grid, both);
  }

  // ---------------------------------------------------------------- zero-operation unit-months

  /** The row test "belongs to this unit in this month". */
  function UnitMonthIs(cemsId: string, month: int): CemsRow -> bool
  {
    (r: CemsRow) => r.cemsId == cemsId && r.reportDate == month
  }

  /** The row test that applies a unit-month decision to each row. */
  function UnitMonthTest(keep: (string, int) -> bool): CemsRow -> bool
  {
    (r: CemsRow) => keep(r.cemsId, r.reportDate)
  }

  /** The rows of one unit in one month (`groupby(['cems_id', 'report_date'])`). */
  function UnitMonthRows(rows: seq<CemsRow>, cemsId: string, month: int): seq<CemsRow>
  {
    Filter(rows, UnitMonthIs(cemsId, month))
  }

  function FilterUnitMonths(rows: seq<CemsRow>, keep: (string, int) -> bool): seq<CemsRow>
  {
    Filter(rows, UnitMonthTest(keep))
  }

  /** The monthly CO2, gross generation and heat input totals of one unit-month, summed
      across the three columns (`.sum(axis=1)`). */
  function UnitMonthTotal(group: seq<CemsRow>): real
  {
    SumOf(group, (r: CemsRow) => ValueOr0(r.co2MassTons))
    + SumOf(group, (r: CemsRow) => ValueOr0(r.grossGenerationMwh))
    + SumOf(group, (r: CemsRow) => ValueOr0(r.heatContentMmbtu))
  }

  /** The unit-month decision over the table `rows`: the group operated. */
  function Operated(rows: seq<CemsRow>): (string, int) -> bool
  {
    (c, m) => UnitMonthTotal(UnitMonthRows(rows, c, m)) != 0.0
  }

  /** remove_cems_with_zero_monthly_emissions. */
  function RemoveCemsWithZeroMonthlyEmissions(rows: seq<CemsRow>): seq<CemsRow>
  {
    FilterUnitMonths(rows, Operated(rows))
  }

  lemma FilterUnitMonthsKeepsWholeGroups(rows: seq<CemsRow>, keep: (string, int) -> bool, cemsId: string, month: int)
    ensures UnitMonthRows(FilterUnitMonths(rows, keep), cemsId, month) ==
      if keep(cemsId, month) then UnitMonthRows(rows, cemsId, month) else []
  {
    FilterFilter(rows, UnitMonthTest(keep), UnitMonthIs(cemsId, month));
    if keep(cemsId, month) {
      FilterCongruent(rows, And(UnitMonthTest(keep), UnitMonthIs(cemsId, month)), UnitMonthIs(cemsId, month));
    } else {
      FilterNone(rows, And(UnitMonthTest(keep), UnitMonthIs(cemsId, month)));
    }
  }

  /** A unit-month is removed as a whole, exactly when its three totals add up to zero. */
  lemma ZeroMonthRemovesWholeUnitMonths(rows: seq<CemsRow>, cemsId: string, month: int)
    ensures UnitMonthRows(RemoveCemsWithZeroMonthlyEmissions(rows), cemsId, month) ==
      if UnitMonthTotal(UnitMonthRows(rows, cemsId, month)) == 0.0 then [] else UnitMonthRows(rows, cemsId, month)
  {
    FilterUnitMonthsKeepsWholeGroups(rows, Operated(rows), cemsId, month);
  }

  /** Removing the zero-operation unit-months a second time removes nothing more. */
  lemma ZeroMonthFilterIdempotent(rows: seq<CemsRow>)
    ensures RemoveCemsWithZeroMonthlyEmissions(RemoveCemsWithZeroMonthlyEmissions(rows))
         == RemoveCemsWithZeroMonthlyEmissions(rows)
  {
    var once := RemoveCemsWithZeroMonthlyEmissions(rows);
    forall r | r in once ensures Operated(once)(r.cemsId, r.reportDate) {
      ZeroMonthRemovesWholeUnitMonths(rows, r.cemsId, r.reportDate);
    }
    FilterKeepsAll(once, UnitMonthTest(Operated(once)));
  }

  // ---------------------------------------------------------------- reporting status

  /** The months in which a unit reported at least one hour. */
  function MonthsReported(rows: seq<CemsRow>, cemsId: string): set<int>
  {
    set r | r in rows && r.cemsId == cemsId :: r.reportDate
  }

  /** The distinct (unit, month) pairs of the table (`groupby(['cems_id','report_date'])`). */
  function UnitMonths(rows: seq<CemsRow>): (keys: seq<(string, int)>)
    ensures NoDups(keys)
    ensures forall k :: k in keys <==> exists r :: r in rows && k == (r.cemsId, r.reportDate)
  {
    var pairs := seq(|rows|, i requires 0 <= i < |rows| => (rows[i].cemsId, rows[i].reportDate));
    assert forall k :: k in pairs <==> exists r :: r in rows && k == (r.cemsId, r.reportDate) by {
      forall k | k in pairs ensures exists r :: r in rows && k == (r.cemsId, r.reportDate) {
        var i :| 0 <= i < |pairs| && pairs[i] == k;
        assert rows[i] in rows;
      }
      forall k | exists r :: r in rows && k == (r.cemsId, r.reportDate) ensures k in pairs {
        var r :| r in rows && k == (r.cemsId, r.reportDate);
        var i :| 0 <= i < |rows| && rows[i] == r;
        assert pairs[i] == k;
      }
    }
    Distinct(pairs)
  }

  /** The key test "this (unit, month) key belongs to the unit". */
  function KeyOfUnit(cemsId: string): ((string, int)) -> bool
  {
    (k: (string, int)) => k.0 == cemsId
  }

  /** How many months a unit appears in (`groupby('cems_id').count()`). */
  function MonthCount(unitMonths: seq<(string, int)>, cemsId: string): nat
  {
    |Filter(unitMonths, KeyOfUnit(cemsId))|
  }

  /** determine_cems_reporting_status: a unit counted in 12 months is `full_year`, every
      other row (the unmatched ones of the left merge) gets `partial_year`. */
  function DetermineCemsReportingStatus(rows: seq<CemsRow>): (labelled: seq<CemsRow>)
    ensures |labelled| == |rows|
    ensures forall i :: 0 <= i < |rows| ==>
      labelled[i] == rows[i].(cemsReportingCategory := labelled[i].cemsReportingCategory)
    ensures forall i :: 0 <= i < |rows| ==>
      (labelled[i].cemsReportingCategory == Some(FullYear) <==> |MonthsReported(rows, rows[i].cemsId)| == 12)
    ensures forall i :: 0 <= i < |rows| ==>
      labelled[i].cemsReportingCategory in {Some(FullYear), Some(PartialYear)}
  {
    var reporters := FullYearReporters(UnitMonths(rows));
    forall i | 0 <= i < |rows|
      ensures rows[i].cemsId in reporters <==> |MonthsReported(rows, rows[i].cemsId)| == 12
    {
      FullYearReporterIff(rows, i);
    }
    seq(|rows|, i requires 0 <= i < |rows| =>
      rows[i].(cemsReportingCategory := Some(if rows[i].cemsId in reporters then FullYear else PartialYear)))
  }

  /** The units counted in 12 months. */
  function FullYearReporters(unitMonths: seq<(string, int)>): set<string>
  {
    set k | k in unitMonths && MonthCount(unitMonths, k.0) == 12 :: k.0
  }

  lemma FullYearReporterIff(rows: seq<CemsRow>, i: int)
    requires 0 <= i < |rows|
    ensures rows[i].cemsId in FullYearReporters(UnitMonths(rows)) <==> |MonthsReported(rows, rows[i].cemsId)| == 12
  {
    MonthCountIsMonthsReported(rows, rows[i].cemsId);
    assert (rows[i].cemsId, rows[i].reportDate) in UnitMonths(rows);
  }

  lemma FilterNoDups<T(!new)>(s: seq<T>, p: T -> bool)
    requires NoDups(s)
    ensures NoDups(Filter(s, p))
  {
    if s != [] {
      assert NoDups(s[1..]) by {
        forall i, j | 0 <= i < j < |s[1..]| ensures s[1..][i] != s[1..][j] {
          assert s[1..][i] == s[i + 1] && s[1..][j] == s[j + 1];
        }
      }
      FilterNoDups(s[1..], p);
      var t := Filter(s[1..], p);
      assert s[0] !in t by {
        forall i | 0 <= i < |s[1..]| ensures s[1..][i] != s[0] {
          assert s[1..][i] == s[i + 1];
        }
      }
    }
  }

  /** The months of a run of keys that all belong to one unit. */
  function SecondComponents(keys: seq<(string, int)>): (months: seq<int>)
    ensures |months| == |keys|
    ensures forall i :: 0 <= i < |keys| ==> months[i] == keys[i].1
  {
    seq(|keys|, i requires 0 <= i < |keys| => keys[i].1)
  }

  /** Counting a unit's distinct (unit, month) keys counts its distinct reported months. */
  lemma MonthCountIsMonthsReported(rows: seq<CemsRow>, cemsId: string)
    ensures MonthCount(UnitMonths(rows), cemsId) == |MonthsReported(rows, cemsId)|
  {
    var keys := Filter(UnitMonths(rows), KeyOfUnit(cemsId));
    FilterNoDups(UnitMonths(rows), KeyOfUnit(cemsId));
    var months := SecondComponents(keys);
    assert NoDups(months) by {
      forall i, j | 0 <= i < j < |months| ensures months[i] != months[j] {
        assert keys[i] in keys && keys[j] in keys;
        assert keys[i].0 == cemsId && keys[j].0 == cemsId;
        assert keys[i] != keys[j];
      }
    }
    NoDupsCardinality(months);
    assert (set m | m in months) == MonthsReported(rows, cemsId) by {
      forall m | m in months ensures m in MonthsReported(rows, cemsId) {
        var i :| 0 <= i < |months| && months[i] == m;
        assert keys[i] in keys;
        var r :| r in rows && keys[i] == (r.cemsId, r.reportDate);
      }
      forall m | m in MonthsReported(rows, cemsId) ensures m in months {
        var r :| r in rows && r.cemsId == cemsId && r.reportDate == m;
        assert (cemsId, m) in UnitMonths(rows);
        assert (cemsId, m) in keys;
        var i :| 0 <= i < |keys| && keys[i] == (cemsId, m);
        assert months[i] == m;
      }
    }
  }

  /** Within one calendar year (months 1 to 12), `full_year` means the unit reported in every month. */
  lemma FullYearMeansEveryMonth(rows: seq<CemsRow>, cemsId: string)
    requires forall r :: r in rows ==> 1 <= r.reportDate <= 12
    ensures |MonthsReported(rows, cemsId)| == 12 <==> forall m :: 1 <= m <= 12 ==> m in MonthsReported(rows, cemsId)
  {
    var reported := MonthsReported(rows, cemsId);
    assert reported <= CalendarMonths();
    TwelveOfTwelve(reported);
  }

  function CalendarMonths(): set<int>
  {
    {1, 2, 3, 4, 5, 6, 7, 8, 9, 10, 11, 12}
  }

  lemma CalendarMonthsMissingOne(m: int)
    requires m in CalendarMonths()
    ensures |CalendarMonths()| == 12
    ensures |CalendarMonths() - {m}| == 11
  {
  }

  /** A set of calendar months has twelve members exactly when it holds every month. */
  lemma TwelveOfTwelve(months: set<int>)
    requires months <= CalendarMonths()
    ensures |months| == 12 <==> forall m :: 1 <= m <= 12 ==> m in months
  {
    CalendarMonthsMissingOne(1);
    if forall m :: 1 <= m <= 12 ==> m in months {
      assert months == CalendarMonths();
    }
    if |months| == 12 && exists m :: 1 <= m <= 12 && m !in months {
      var m :| 1 <= m <= 12 && m !in months;
      CalendarMonthsMissingOne(m);
      SubsetCardinality(months, CalendarMonths() - {m});
    }
  }
}
