/** The output transforms of src/output_data.py: the US-to-metric column conversion, the
    generated emission rates by balancing authority and by fuel category, the routing of plant
    data by id and resolution, and the one-row-per-key plant metadata. Writing files is not
    modelled: each writer returns the tables it would write. */
module OutputData {
  import opened Common
  import opened Text

  // ---------------------------------------------------------------- metric units

  /** One entry of the unit table: the US unit token, its metric name and the factor. */
  datatype Conversion = Conversion(unit: string, newUnit: string, factor: real)

  /** The unit table, in the order its keys are searched: pounds before MMBtu. */
  const UnitConversions: seq<Conversion> := [Conversion("lb", "kg", 0.453592), Conversion("mmbtu", "GJ", 1.055056)]

  /** A column of a results table: its name and its (nullable) values. */
  datatype Column = Column(name: string, values: seq<Option<real>>)

  /** The `_`-separated tokens of a column name. */
  function Tokens(name: string): seq<string>
  {
    Split(name, '_')
  }

  /** The first conversion of the table whose unit is a whole token of the name. */
  function UnitOf(name: string): (c: Option<Conversion>)
    ensures c.None? <==> "lb" !in Tokens(name) && "mmbtu" !in Tokens(name)
    ensures "lb" in Tokens(name) ==> c == Some(UnitConversions[0])
    ensures "lb" !in Tokens(name) && "mmbtu" in Tokens(name) ==> c == Some(UnitConversions[1])
  {
    FirstUnitFrom(name, 0)
  }

  /** Entry j is the first entry from k on whose unit is a token of the name. */
  predicate FirstUnitAt(name: string, k: nat, j: nat)
    requires j < |UnitConversions|
  {
    UnitConversions[j].unit in Tokens(name) && forall i :: k <= i < j ==> UnitConversions[i].unit !in Tokens(name)
  }

  function FirstUnitFrom(name: string, k: nat): (c: Option<Conversion>)
    requires k <= |UnitConversions|
    ensures c.None? <==> forall j :: k <= j < |UnitConversions| ==> UnitConversions[j].unit !in Tokens(name)
    ensures c.Some? ==> exists j :: k <= j < |UnitConversions| && c.value == UnitConversions[j] && FirstUnitAt(name, k, j)
    decreases |UnitConversions| - k
  {
    if k == |UnitConversions| then None
    else if UnitConversions[k].unit in Tokens(name) then Some(UnitConversions[k])
    else FirstUnitFrom(name, k + 1)
  }

  /** Every value times the factor; a null stays null. */
  function Scaled(values: seq<Option<real>>, factor: real): (r: seq<Option<real>>)
    ensures |r| == |values|
    ensures forall i :: 0 <= i < |values| ==> r[i] == Times(values[i], Some(factor))
  {
    seq(|values|, i requires 0 <= i < |values| => Times(values[i], Some(factor)))
  }

  /** One column after convert_results: renamed with `str.replace` of its unit and scaled by
      the unit's factor, or untouched when none of its tokens is a unit. */
  function ConvertColumn(c: Column): (d: Column)
    ensures UnitOf(c.name).None? ==> d == c
    ensures UnitOf(c.name).Some? ==>
      var u := UnitOf(c.name).value;
      d.name == Replace(c.name, u.unit, u.newUnit) && d.values == Scaled(c.values, u.factor)
  {
    var u := UnitOf(c.name);
    if u.None? then c else Column(Replace(c.name, u.value.unit, u.value.newUnit), Scaled(c.values, u.value.factor))
  }

  /** convert_results: a deep copy of the table in which every column is converted in turn. The
      input array is not in the method's frame, so it is left as it was. */
  method ConvertResults(df: array<Column>) returns (converted: array<Column>)
    ensures fresh(converted)
    ensures converted.Length == df.Length
    ensures forall i :: 0 <= i < df.Length ==> converted[i] == ConvertColumn(df[i])
  {
    converted := new Column[df.Length];
    forall i | 0 <= i < df.Length {
      converted[i] := df[i];
    }
    for i := 0 to converted.Length
      invariant forall j :: 0 <= j < i ==> converted[j] == ConvertColumn(df[j])
      invariant forall j :: i <= j < converted.Length ==> converted[j] == df[j]
    {
      var column := converted[i];
      var tokens := Split(column.name, '_');
      var unit: Option<Conversion> := None;
      var k := 0;
      while k < |UnitConversions|
        invariant 0 <= k <= |UnitConversions|
        invariant unit.None? ==> FirstUnitFrom(column.name, 0) == FirstUnitFrom(column.name, k)
        invariant unit.Some? ==> unit == FirstUnitFrom(column.name, 0) && k == |UnitConversions|
      {
        if UnitConversions[k].unit in tokens {
          unit := Some(UnitConversions[k]);
          break;
        }
        k := k + 1;
      }
      if unit.None? {
        continue;
      }
      var newCol := Replace(column.name, unit.value.unit, unit.value.newUnit);
      converted[i] := Column(newCol, column.values);
      converted[i] := converted[i].(values := Scaled(converted[i].values, unit.value.factor));
    }
  }

  /** A converted column's total is the original total times the unit's factor. */
  lemma {:induction false} ConvertedTotalScales(c: Column)
    requires UnitOf(c.name).Some?
    ensures SumOf(ConvertColumn(c).values, ValueOr0) == UnitOf(c.name).value.factor * SumOf(c.values, ValueOr0)
  {
    var u := UnitOf(c.name).value;
    ScaledSum(c.values, u.factor);
  }

  lemma {:induction false} ScaledSum(values: seq<Option<real>>, factor: real)
    ensures SumOf(Scaled(values, factor), ValueOr0) == factor * SumOf(values, ValueOr0)
  {
    if values != [] {
      ScaledSum(values[1..], factor);
      assert Scaled(values, factor)[1..] == Scaled(values[1..], factor);
    }
  }

  /** Dividing a converted value by the factor gives back the original value. */
  lemma ConvertedValuesRecoverOriginals(c: Column, i: int)
    requires UnitOf(c.name).Some? && 0 <= i < |c.values| && c.values[i].Some?
    ensures var f := UnitOf(c.name).value.factor;
      ConvertColumn(c).values[i] == Some(c.values[i].value * f) && ConvertColumn(c).values[i].value / f == c.values[i].value
  {
    var u := UnitOf(c.name).value;
    assert u.factor > 0.0 by {
      if "lb" in Tokens(c.name) {
        assert u == UnitConversions[0];
      } else {
        assert u == UnitConversions[1];
      }
    }
    var v := c.values[i].value;
    assert ConvertColumn(c).values == Scaled(c.values, u.factor);
    var w := Times(c.values[i], Some(u.factor));
    assert ConvertColumn(c).values[i] == w;
    assert w.value == v * u.factor;
    assert w == Some(v * u.factor);
    assert v * u.factor / u.factor == v;
  }

  // ---------------------------------------------------------------- emission rates

  /** A generated emission rate by BA (add_generated_emission_rate_columns): mass over net
      generation, with 0/0 and nulls set to 0 and an infinite rate set to null. */
  function BaRate(mass: Option<real>, net: Option<real>): (r: Option<real>)
    ensures r.None? <==> mass.Some? && net == Some(0.0) && mass.value != 0.0
    ensures r.Some? && mass.Some? && net.Some? && net.value != 0.0 ==> r.value * net.value == mass.value
    ensures r.Some? && !(mass.Some? && net.Some? && net.value != 0.0) ==> r.value == 0.0
  {
    match DivOpt(mass, net)
    case Fin(v) => Some(v)
    case NaN => Some(0.0)
    case Inf(_) => None
  }

  /** A generated emission rate by fuel category (write_generated_averages): as by BA, but the
      remaining nulls are set to 0 as well, so every rate is defined. */
  function AverageRate(mass: Option<real>, net: Option<real>): (r: real)
    ensures mass.Some? && net.Some? && net.value != 0.0 ==> r * net.value == mass.value
    ensures !(mass.Some? && net.Some? && net.value != 0.0) ==> r == 0.0
  {
    var rate := BaRate(mass, net);
    if rate.Some? then rate.value else 0.0
  }

  /** Scaling mass and generation by the same positive count leaves the rate unchanged. */
  lemma AverageRateOfMeans(mass: real, net: real, n: real)
    requires n > 0.0
    ensures AverageRate(Some(mass / n), Some(net / n)) == AverageRate(Some(mass), Some(net))
  {
    if net != 0.0 {
      var r := AverageRate(Some(mass), Some(net));
      var q := AverageRate(Some(mass / n), Some(net / n));
      assert r * net == mass;
      assert q * (net / n) == mass / n;
      assert q * net == mass by {
        assert q * (net / n) * n == (mass / n) * n;
      }
      assert q == mass / net;
    }
  }

  const Emissions: seq<string> := ["co2", "ch4", "n2o", "co2e", "nox", "so2"]
  const EmissionTypes: seq<string> := ["_for_electricity", "_for_electricity_adjusted"]

  /** The k-th (mass, rate) column pair: emission types in the outer loop, emissions inside. */
  function MassColumn(k: nat): string
    requires k < 12
  {
    Emissions[k % 6] + "_mass_lb" + EmissionTypes[k / 6]
  }

  function RateColumn(k: nat): string
    requires k < 12
  {
    "generated_" + Emissions[k % 6] + "_rate_lb_per_mwh" + EmissionTypes[k / 6]
  }

  /** An hourly or annual row of BA fuel data: its fuel category, net generation, and the
      twelve pound-mass columns in the order of `MassColumn`. */
  datatype BaFuelRow = BaFuelRow(fuelCategory: string, netGenerationMwh: Option<real>, massLb: seq<Option<real>>)

  predicate HasMassColumns(rows: seq<BaFuelRow>)
  {
    forall r :: r in rows ==> |r.massLb| == 12
  }

  /** A row of the fuel-category averages table with its twelve generated rates. */
  datatype AverageRow = AverageRow(fuelCategory: string, netGenerationMwh: Option<real>, massLb: seq<Option<real>>, rates: seq<real>)

  function CategoryIs(c: string): BaFuelRow -> bool
  {
    (r: BaFuelRow) => r.fuelCategory == c
  }

  function CategoryOf(r: BaFuelRow): string
  {
    r.fuelCategory
  }

  function NetOf(r: BaFuelRow): real
  {
    ValueOr0(r.netGenerationMwh)
  }

  function MassOf(k: nat): BaFuelRow -> real
  {
    (r: BaFuelRow) => if k < |r.massLb| then ValueOr0(r.massLb[k]) else 0.0
  }

  /** The fuel category column, row by row. */
  function CategoryColumn(rows: seq<BaFuelRow>): (all: seq<string>)
    ensures forall c :: c in all <==> exists r :: r in rows && r.fuelCategory == c
  {
    var all := seq(|rows|, i requires 0 <= i < |rows| => rows[i].fuelCategory);
    assert forall c :: c in all <==> exists r :: r in rows && r.fuelCategory == c by {
      forall c | c in all ensures exists r :: r in rows && r.fuelCategory == c {
        var i :| 0 <= i < |all| && all[i] == c;
        assert rows[i] in rows;
      }
      forall c | exists r :: r in rows && r.fuelCategory == c ensures c in all {
        var r :| r in rows && r.fuelCategory == c;
        var i :| 0 <= i < |rows| && rows[i] == r;
        assert all[i] == c;
      }
    }
    all
  }

  /** The fuel categories in the sorted order of the group-by. */
  function Categories(rows: seq<BaFuelRow>): (cats: seq<string>)
    ensures NoDups(cats)
    ensures forall c :: c in cats <==> exists r :: r in rows && r.fuelCategory == c
  {
    var d := Distinct(CategoryColumn(rows));
    var cats := Sort(d);
    NoDupsOfPermutation(d, cats);
    NoDupsPermutation(d, cats);
    cats
  }

  /** The twelve rates of a row with the given totals. */
  function Rates(net: Option<real>, mass: seq<Option<real>>): (rates: seq<real>)
    requires |mass| == 12
    ensures |rates| == 12
    ensures forall k :: 0 <= k < 12 ==> rates[k] == AverageRate(mass[k], net)
  {
    seq(12, k requires 0 <= k < 12 => AverageRate(mass[k], net))
  }

  /** The summed row of one fuel category, with its rates. */
  function CategoryRow(rows: seq<BaFuelRow>, c: string): AverageRow
  {
    var group := Filter(rows, CategoryIs(c));
    var net := Some(SumOf(group, NetOf));
    var mass := seq(12, k requires 0 <= k < 12 => Some(SumOf(group, MassOf(k))));
    AverageRow(c, net, mass, Rates(net, mass))
  }

  /** The "total" row: the column-wise mean of the category rows (all null when there is no
      category), with its rates. */
  function TotalRow(rows: seq<BaFuelRow>): AverageRow
  {
    var cats := Categories(rows);
    var n := |cats| as real;
    var net := if cats == [] then None else Some(SumOf(cats, GroupTotal(rows, CategoryOf, NetOf)) / n);
    var mass := seq(12, k requires 0 <= k < 12 =>
      if cats == [] then None else Some(SumOf(cats, GroupTotal(rows, CategoryOf, MassOf(k))) / n));
    AverageRow("total", net, mass, Rates(net, mass))
  }

  /** write_generated_averages: one summed row per fuel category, then the "total" row. */
  function GeneratedAverages(rows: seq<BaFuelRow>): (table: seq<AverageRow>)
    ensures |table| == |Categories(rows)| + 1
    ensures table[|table| - 1].fuelCategory == "total"
    ensures forall i :: 0 <= i < |table| - 1 ==> table[i] == CategoryRow(rows, Categories(rows)[i])
  {
    var cats := Categories(rows);
    seq(|cats|, i requires 0 <= i < |cats| => CategoryRow(rows, cats[i])) + [TotalRow(rows)]
  }

  /** The "total" row's rate is the pooled rate of the whole table: the mean of the category
      masses over the mean of the category generations is total mass over total generation. */
  lemma {:induction false} TotalRateIsPooledRate(rows: seq<BaFuelRow>, k: nat)
    requires rows != [] && k < 12
    ensures TotalRow(rows).rates[k] == AverageRate(Some(SumOf(rows, MassOf(k))), Some(SumOf(rows, NetOf)))
  {
    var cats := Categories(rows);
    assert rows[0] in rows;
    assert rows[0].fuelCategory in cats;
    var n := |cats| as real;
    GroupTotalsPartition(rows, CategoryOf, cats, NetOf);
    GroupTotalsPartition(rows, CategoryOf, cats, MassOf(k));
    var total := TotalRow(rows);
    assert total.netGenerationMwh == Some(SumOf(rows, NetOf) / n);
    assert total.massLb[k] == Some(SumOf(rows, MassOf(k)) / n);
    AverageRateOfMeans(SumOf(rows, MassOf(k)), SumOf(rows, NetOf), n);
  }

  /** A category's rate is its own total mass over its own total generation, 0 where it
      generated nothing. */
  lemma CategoryRateIsItsOwn(rows: seq<BaFuelRow>, c: string, k: nat)
    requires k < 12
    ensures var group := Filter(rows, CategoryIs(c));
      var rate := CategoryRow(rows, c).rates[k];
      (SumOf(group, NetOf) != 0.0 ==> rate * SumOf(group, NetOf) == SumOf(group, MassOf(k)))
      && (SumOf(group, NetOf) == 0.0 ==> rate == 0.0)
  {
  }

  // ---------------------------------------------------------------- plant data routing

  /** A plant-level output row; the other numeric columns are summed the same way. */
  datatype PlantDataRow = PlantDataRow(plantIdEia: int, netGenerationMwh: Option<real>)

  /** One table handed to the results writer: its file name, subfolder and rows. */
  datatype ResultsFile = ResultsFile(fileName: string, subfolder: string, rows: seq<PlantDataRow>)

  function IdAbove(limit: int): PlantDataRow -> bool
  {
    (r: PlantDataRow) => r.plantIdEia > limit
  }

  function IdBelow(limit: int): PlantDataRow -> bool
  {
    (r: PlantDataRow) => r.plantIdEia < limit
  }

  function IdIs(id: int): PlantDataRow -> bool
  {
    (r: PlantDataRow) => r.plantIdEia == id
  }

  function PlantOf(r: PlantDataRow): int
  {
    r.plantIdEia
  }

  function PlantNet(r: PlantDataRow): real
  {
    ValueOr0(r.netGenerationMwh)
  }

  predicate Increasing(ids: seq<int>)
  {
    forall i, j :: 0 <= i < j < |ids| ==> ids[i] < ids[j]
  }

  /** Place an id into an increasing list, once. */
  function InsertId(x: int, ids: seq<int>): (r: seq<int>)
    requires Increasing(ids)
    ensures Increasing(r)
    ensures forall p :: p in r <==> p == x || p in ids
  {
    if ids == [] then [x]
    else if x < ids[0] then [x] + ids
    else if x == ids[0] then ids
    else
      var t := InsertId(x, ids[1..]);
      assert forall p :: p in ids[1..] ==> ids[0] < p;
      assert forall j :: 0 <= j < |t| ==> ids[0] < t[j] by {
        forall j | 0 <= j < |t| ensures ids[0] < t[j] {
          assert t[j] in t;
        }
      }
      [ids[0]] + t
  }

  /** The distinct ids of a list in ascending order, as `groupby` orders its keys. */
  function Ascending(ids: seq<int>): (r: seq<int>)
    ensures Increasing(r)
    ensures forall p :: p in r <==> p in ids
  {
    if ids == [] then [] else InsertId(ids[0], Ascending(ids[1..]))
  }

  /** The distinct plants of a table in ascending order, the group keys of `groupby`. */
  function Plants(df: seq<PlantDataRow>): (plants: seq<int>)
    ensures NoDups(plants)
    ensures forall p :: p in plants <==> exists r :: r in df && r.plantIdEia == p
    ensures Increasing(plants)
  {
    var all := seq(|df|, i requires 0 <= i < |df| => df[i].plantIdEia);
    assert forall p :: p in all <==> exists r :: r in df && r.plantIdEia == p by {
      forall p | p in all ensures exists r :: r in df && r.plantIdEia == p {
        var i :| 0 <= i < |all| && all[i] == p;
        assert df[i] in df;
      }
      forall p | exists r :: r in df && r.plantIdEia == p ensures p in all {
        var r :| r in df && r.plantIdEia == p;
        var i :| 0 <= i < |df| && df[i] == r;
        assert all[i] == p;
      }
    }
    Ascending(all)
  }

  /** The annual table: one summed row per plant, in ascending plant order. */
  function AnnualPlantData(df: seq<PlantDataRow>): (annual: seq<PlantDataRow>)
    ensures |annual| == |Plants(df)|
    ensures forall i, j :: 0 <= i < j < |annual| ==> annual[i].plantIdEia < annual[j].plantIdEia
    ensures forall i :: 0 <= i < |annual| ==>
      annual[i] == PlantDataRow(Plants(df)[i], Some(GroupTotal(df, PlantOf, PlantNet)(Plants(df)[i])))
  {
    var plants := Plants(df);
    seq(|plants|, i requires 0 <= i < |plants| => PlantDataRow(plants[i], Some(GroupTotal(df, PlantOf, PlantNet)(plants[i]))))
  }

  /** output_plant_data: the tables written for a resolution. Hourly data is split at plant id
      900000, monthly data is written whole, annual data summed by plant; any other resolution,
      or skipping outputs, writes nothing. */
  function OutputPlantData(df: seq<PlantDataRow>, resolution: string, skipOutputs: bool): (files: seq<ResultsFile>)
    ensures skipOutputs ==> files == []
    ensures !skipOutputs && resolution == "hourly" ==> files == [
      ResultsFile("synthetic_plant_data", "plant_data/hourly/", Filter(df, IdAbove(900000))),
      ResultsFile("CEMS_plant_data", "plant_data/hourly/", Filter(df, IdBelow(900000)))]
    ensures !skipOutputs && resolution == "monthly" ==> files == [ResultsFile("plant_data", "plant_data/monthly/", df)]
    ensures !skipOutputs && resolution == "annual" ==> files == [ResultsFile("plant_data", "plant_data/annual/", AnnualPlantData(df))]
    ensures resolution !in {"hourly", "monthly", "annual"} ==> files == []
  {
    if skipOutputs then []
    else if resolution == "hourly" then
      [ResultsFile("synthetic_plant_data", "plant_data/hourly/", Filter(df, IdAbove(900000))),
       ResultsFile("CEMS_plant_data", "plant_data/hourly/", Filter(df, IdBelow(900000)))]
    else if resolution == "monthly" then [ResultsFile("plant_data", "plant_data/monthly/", df)]
    else if resolution == "annual" then [ResultsFile("plant_data", "plant_data/annual/", AnnualPlantData(df))]
    else []
  }

  /** The two hourly tables and the rows of plant 900000 together are the input table, each
      row once: plant 900000 is in neither table and every other row in exactly one. */
  lemma {:induction false} HourlyRoutingPartition(df: seq<PlantDataRow>)
    ensures multiset(Filter(df, IdAbove(900000))) + multiset(Filter(df, IdBelow(900000)))
      + multiset(Filter(df, IdIs(900000))) == multiset(df)
  {
    if df != [] {
      HourlyRoutingPartition(df[1..]);
      assert df == [df[0]] + df[1..];
    }
  }

  /** The annual table keeps the total generation of the hourly or monthly one. */
  lemma AnnualTotalsPreserved(df: seq<PlantDataRow>)
    ensures SumOf(AnnualPlantData(df), PlantNet) == SumOf(df, PlantNet)
  {
    var plants := Plants(df);
    var total := GroupTotal(df, PlantOf, PlantNet);
    GroupTotalsPartition(df, PlantOf, plants, PlantNet);
    AnnualSumIsKeySum(plants, total);
    assert AnnualPlantData(df) == seq(|plants|, i requires 0 <= i < |plants| => PlantDataRow(plants[i], Some(total(plants[i]))));
  }

  lemma {:induction false} AnnualSumIsKeySum(plants: seq<int>, total: int -> real)
    ensures SumOf(seq(|plants|, i requires 0 <= i < |plants| => PlantDataRow(plants[i], Some(total(plants[i])))), PlantNet)
      == SumOf(plants, total)
  {
    if plants != [] {
      AnnualSumIsKeySum(plants[1..], total);
      var rows := seq(|plants|, i requires 0 <= i < |plants| => PlantDataRow(plants[i], Some(total(plants[i]))));
      assert rows[1..] == seq(|plants[1..]|, i requires 0 <= i < |plants[1..]| => PlantDataRow(plants[1..][i], Some(total(plants[1..][i]))));
    }
  }

  // ---------------------------------------------------------------- plant metadata

  /** `drop_duplicates(subset=key)`: the first row of every key, in order. */
  function DropDuplicates<T(!new), K(==)>(s: seq<T>, key: T -> K): (r: seq<T>)
    ensures NoDups(MapRows(r, key))
    ensures forall x :: x in r ==> x in s
    ensures forall x :: x in s ==> key(x) in MapRows(r, key)
  {
    if s == [] then []
    else
      var init := s[..|s| - 1];
      var x := s[|s| - 1];
      var d := DropDuplicates(init, key);
      assert forall y :: y in s <==> y in init || y == x by {
        assert s == init + [x];
      }
      if key(x) in MapRows(d, key) then d
      else
        var r := d + [x];
        assert MapRows(r, key) == MapRows(d, key) + [key(x)];
        r
  }

  /** Every row `drop_duplicates` keeps is the first row of its key. */
  lemma {:induction false} DropDuplicatesKeepsFirst<T(!new), K>(s: seq<T>, key: T -> K)
    ensures forall y :: y in DropDuplicates(s, key) ==> First(s, KeyIs(key, key(y))) == Some(y)
  {
    if s != [] {
      var init := s[..|s| - 1];
      var x := s[|s| - 1];
      var d := DropDuplicates(init, key);
      DropDuplicatesKeepsFirst(init, key);
      assert s == init + [x];
      forall y | y in DropDuplicates(s, key) ensures First(s, KeyIs(key, key(y))) == Some(y) {
        FirstAppend(init, [x], KeyIs(key, key(y)));
        if y !in d {
          assert y == x && key(x) !in MapRows(d, key);
          assert First(init, KeyIs(key, key(x))) == None;
        }
      }
    }
  }

  /** An hour of CEMS or partial-CEMS data at subplant level, with its net generation method. */
  datatype SubplantHour = SubplantHour(plantIdEia: int, subplantId: int, reportDate: int, gtnMethod: string)

  /** An hour of EIA data shaped to an hourly profile, with the profile's method. */
  datatype ShapedEiaHour = ShapedEiaHour(plantIdEia: int, reportDate: int, profileMethod: string)

  /** A row of the plant metadata file; EIA rows have no subplant. */
  datatype MetadataRow = MetadataRow(
    plantIdEia: int,
    subplantId: Option<int>,
    reportDate: int,
    dataSource: string,
    hourlyProfileSource: string,
    netGenerationMethod: string)

  function CemsMeta(h: SubplantHour): MetadataRow
  {
    MetadataRow(h.plantIdEia, Some(h.subplantId), h.reportDate, "CEMS", "CEMS", h.gtnMethod)
  }

  function PartialCemsMeta(h: SubplantHour): MetadataRow
  {
    MetadataRow(h.plantIdEia, Some(h.subplantId), h.reportDate, "partial CEMS/EIA", "partial CEMS", "partial_cems")
  }

  function EiaMeta(h: ShapedEiaHour): MetadataRow
  {
    MetadataRow(h.plantIdEia, None, h.reportDate, "EIA", h.profileMethod, h.profileMethod)
  }

  /** The (plant, subplant, month) key of a metadata row. */
  function SubplantKey(m: MetadataRow): (int, Option<int>, int)
  {
    (m.plantIdEia, m.subplantId, m.reportDate)
  }

  function PlantMonthKey(m: MetadataRow): (int, int)
  {
    (m.plantIdEia, m.reportDate)
  }

  function MapRows<T, U>(s: seq<T>, f: T -> U): (r: seq<U>)
    ensures |r| == |s|
    ensures forall i :: 0 <= i < |s| ==> r[i] == f(s[i])
  {
    seq(|s|, i requires 0 <= i < |s| => f(s[i]))
  }

  /** The CEMS part of the metadata: one row per (plant, subplant, month), from its first hour. */
  function CemsMetadata(cems: seq<SubplantHour>): seq<MetadataRow>
  {
    DropDuplicates(MapRows(cems, CemsMeta), SubplantKey)
  }

  function PartialCemsMetadata(partialCems: seq<SubplantHour>): seq<MetadataRow>
  {
    DropDuplicates(MapRows(partialCems, PartialCemsMeta), SubplantKey)
  }

  function EiaMetadata(shaped: seq<ShapedEiaHour>): seq<MetadataRow>
  {
    DropDuplicates(MapRows(shaped, EiaMeta), PlantMonthKey)
  }

  /** write_plant_metadata: the three parts, CEMS first, then partial CEMS, then EIA. */
  function WritePlantMetadata(cems: seq<SubplantHour>, partialCems: seq<SubplantHour>, shaped: seq<ShapedEiaHour>)
    : (metadata: seq<MetadataRow>)
    ensures metadata == CemsMetadata(cems) + PartialCemsMetadata(partialCems) + EiaMetadata(shaped)
    ensures forall m :: m in metadata ==> m.dataSource in {"CEMS", "partial CEMS/EIA", "EIA"}
  {
    CemsMetadata(cems) + PartialCemsMetadata(partialCems) + EiaMetadata(shaped)
  }

  /** Hour i is the first hour of its subplant-month, and m is made from it. */
  predicate FirstHourOf(cems: seq<SubplantHour>, i: int, m: MetadataRow)
  {
    0 <= i < |cems| && m == CemsMeta(cems[i])
    && forall j :: 0 <= j < i ==> SubplantKey(CemsMeta(cems[j])) != SubplantKey(m)
  }

  /** Every CEMS subplant-month has exactly one metadata row, made from its first hour. */
  lemma {:induction false} CemsMetadataFirstHourPerKey(cems: seq<SubplantHour>)
    ensures NoDups(MapRows(CemsMetadata(cems), SubplantKey))
    ensures forall h :: h in cems ==> SubplantKey(CemsMeta(h)) in MapRows(CemsMetadata(cems), SubplantKey)
    ensures forall m :: m in CemsMetadata(cems) ==> m.dataSource == "CEMS" && exists i :: FirstHourOf(cems, i, m)
  {
    forall h | h in cems ensures SubplantKey(CemsMeta(h)) in MapRows(CemsMetadata(cems), SubplantKey) {
      CemsHourHasMetadata(cems, h);
    }
    DropDuplicatesKeepsFirst(MapRows(cems, CemsMeta), SubplantKey);
    forall m | m in CemsMetadata(cems) ensures m.dataSource == "CEMS" && exists i :: FirstHourOf(cems, i, m) {
      CemsMetadataRowFromFirstHour(cems, m);
    }
  }

  lemma CemsHourHasMetadata(cems: seq<SubplantHour>, h: SubplantHour)
    requires h in cems
    ensures SubplantKey(CemsMeta(h)) in MapRows(CemsMetadata(cems), SubplantKey)
  {
    var rows := MapRows(cems, CemsMeta);
    var i :| 0 <= i < |cems| && cems[i] == h;
    assert rows[i] in rows;
  }

  lemma CemsMetadataRowFromFirstHour(cems: seq<SubplantHour>, m: MetadataRow)
    requires m in CemsMetadata(cems)
    requires First(MapRows(cems, CemsMeta), KeyIs(SubplantKey, SubplantKey(m))) == Some(m)
    ensures m.dataSource == "CEMS" && exists i :: FirstHourOf(cems, i, m)
  {
    var rows := MapRows(cems, CemsMeta);
    var i :| 0 <= i < |rows| && rows[i] == m && forall j :: 0 <= j < i ==> !KeyIs(SubplantKey, SubplantKey(m))(rows[j]);
    assert FirstHourOf(cems, i, m);
  }

  /** Every EIA plant-month has exactly one metadata row, without a subplant, whose profile
      source and net generation method are both the profile's method. */
  lemma {:induction false} EiaMetadataOnePerPlantMonth(shaped: seq<ShapedEiaHour>)
    ensures NoDups(MapRows(EiaMetadata(shaped), PlantMonthKey))
    ensures forall h :: h in shaped ==> (h.plantIdEia, h.reportDate) in MapRows(EiaMetadata(shaped), PlantMonthKey)
    ensures forall m :: m in EiaMetadata(shaped) ==>
      (m.dataSource == "EIA" && m.subplantId.None? && m.hourlyProfileSource == m.netGenerationMethod)
  {
    var rows := MapRows(shaped, EiaMeta);
    var meta := EiaMetadata(shaped);
    forall h | h in shaped ensures (h.plantIdEia, h.reportDate) in MapRows(meta, PlantMonthKey) {
      var i :| 0 <= i < |shaped| && shaped[i] == h;
      assert rows[i] in rows;
    }
    forall m | m in meta
      ensures m.dataSource == "EIA" && m.subplantId.None? && m.hourlyProfileSource == m.netGenerationMethod
    {
      var i :| 0 <= i < |rows| && rows[i] == m;
    }
  }
}
