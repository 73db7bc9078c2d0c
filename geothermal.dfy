/** Geothermal CO2 emission factors per plant and month
    (src/data_cleaning.py: calculate_geothermal_emission_factors). EPA assigns each
    geothermal plant a geotype (flash "F", steam "S", binary "B"); the EIA-923 prime movers
    (steam turbine "ST", binary turbine "BT") correct that assignment, and each plant-month
    gets the heat-input-weighted average of the geotype emission factors. */
module Geothermal {
  import opened Common
  import opened Tables

  /** One row of the EPA geotype table (`table_geothermal_geotype`). */
  datatype GeotypeRow = GeotypeRow(plantIdEia: int, geotypeCode: string)

  /** A geothermal plant's heat input through one prime mover in one month, with its geotype. */
  datatype GeoRow = GeoRow(
    plantIdEia: int,
    primeMoverCode: string,
    reportDate: int,
    fuelConsumedMmbtu: real,
    geotypeCode: Option<string>)

  // ---------------------------------------------------------------- heat input by prime mover

  predicate IsGeothermalFuel(r: GenerationFuelRow)
  {
    r.energySourceCode == "GEO"
  }

  function GeoKey(r: GenerationFuelRow): (int, string, int)
  {
    (r.plantIdEia, r.primeMoverCode, r.reportDate)
  }

  /** `fuel_consumed_mmbtu` as a skip-NaN sum sees it. */
  function FuelConsumed(r: GenerationFuelRow): real
  {
    ValueOr0(r.fuelConsumedMmbtu)
  }

  function GeotypePlantIs(plant: int): GeotypeRow -> bool
  {
    (t: GeotypeRow) => t.plantIdEia == plant
  }

  /** The EPA geotype merged onto a plant's rows; null when EPA does not list the plant. */
  function PlantGeotype(geotypes: seq<GeotypeRow>, plant: int): (g: Option<string>)
    ensures g.Some? <==> exists t :: t in geotypes && t.plantIdEia == plant
    ensures g.Some? ==> GeotypeRow(plant, g.value) in geotypes
  {
    var t := First(geotypes, GeotypePlantIs(plant));
    if t.Some? then Some(t.value.geotypeCode) else None
  }

  predicate HasHeatInput(r: GeoRow)
  {
    r.fuelConsumedMmbtu > 0.0
  }

  /** The (plant, prime mover, month) key of a summed row. */
  function GeoRowKey(r: GeoRow): (int, string, int)
  {
    (r.plantIdEia, r.primeMoverCode, r.reportDate)
  }

  /** The distinct (plant, prime mover, month) keys of the geothermal rows, each once. */
  function GeoKeys(geoFuel: seq<GenerationFuelRow>): (keys: seq<(int, string, int)>)
    ensures forall k :: k in keys <==> exists g :: g in geoFuel && GeoKey(g) == k
    ensures NoDups(keys)
  {
    var allKeys := seq(|geoFuel|, i requires 0 <= i < |geoFuel| => GeoKey(geoFuel[i]));
    assert forall k :: k in allKeys <==> exists g :: g in geoFuel && GeoKey(g) == k by {
      forall k ensures k in allKeys <==> exists g :: g in geoFuel && GeoKey(g) == k {
        if k in allKeys {
          var j :| 0 <= j < |allKeys| && allKeys[j] == k;
          assert geoFuel[j] in geoFuel;
        }
        if exists g :: g in geoFuel && GeoKey(g) == k {
          var g :| g in geoFuel && GeoKey(g) == k;
          var j :| 0 <= j < |geoFuel| && geoFuel[j] == g;
          assert allKeys[j] == k;
        }
      }
    }
    Distinct(allKeys)
  }

  /** One row per key, with the summed heat input and the plant's EPA geotype: every key of the
      input has its row, and no key has two. */
  function SummedGeoRows(geoFuel: seq<GenerationFuelRow>, geotypes: seq<GeotypeRow>): (summed: seq<GeoRow>)
    ensures forall r :: r in summed ==> r.geotypeCode == PlantGeotype(geotypes, r.plantIdEia)
    ensures forall r :: r in summed ==>
      r.fuelConsumedMmbtu == GroupTotal(geoFuel, GeoKey, FuelConsumed)(GeoRowKey(r))
    ensures forall r :: r in summed ==> exists g :: g in geoFuel && GeoKey(g) == GeoRowKey(r)
    ensures forall g :: g in geoFuel ==> exists r :: r in summed && GeoRowKey(r) == GeoKey(g)
    ensures KeysDistinct(summed, GeoRowKey)
  {
    var keys := GeoKeys(geoFuel);
    var rowOf := SummedRowMaker(geoFuel, geotypes);
    var summed := seq(|keys|, i requires 0 <= i < |keys| => rowOf(keys[i]));
    forall k: (int, string, int) ensures GeoRowKey(rowOf(k)) == k {
      assert k == (k.0, k.1, k.2);
    }
    ListedByKey(keys, summed, GeoRowKey, rowOf);
    forall g | g in geoFuel
      ensures exists r :: r in summed && GeoRowKey(r) == GeoKey(g)
    {
      assert rowOf(GeoKey(g)) in summed;
    }
    summed
  }

  /** The summed row of one key. */
  function SummedRowMaker(geoFuel: seq<GenerationFuelRow>, geotypes: seq<GeotypeRow>): ((int, string, int)) -> GeoRow
  {
    (k: (int, string, int)) => GeoRow(k.0, k.1, k.2, GroupTotal(geoFuel, GeoKey, FuelConsumed)(k), PlantGeotype(geotypes, k.0))
  }

  /** The geothermal rows of EIA-923 summed per (plant, prime mover, month), those without
      heat input dropped, with the EPA geotype of the plant attached: every key whose total is
      positive has its row, and no key has two. */
  function GeoInEia(gf: seq<GenerationFuelRow>, geotypes: seq<GeotypeRow>): (geo: seq<GeoRow>)
    ensures forall r :: r in geo ==> r.fuelConsumedMmbtu > 0.0
    ensures forall r :: r in geo ==> r.geotypeCode == PlantGeotype(geotypes, r.plantIdEia)
    ensures forall r :: r in geo ==>
      r.fuelConsumedMmbtu == GroupTotal(Filter(gf, IsGeothermalFuel), GeoKey, FuelConsumed)(GeoRowKey(r))
    ensures forall r :: r in geo ==>
      exists g :: g in gf && IsGeothermalFuel(g) && GeoKey(g) == GeoRowKey(r)
    ensures forall g :: (g in gf && IsGeothermalFuel(g)
      && GroupTotal(Filter(gf, IsGeothermalFuel), GeoKey, FuelConsumed)(GeoKey(g)) > 0.0) ==>
      exists r :: r in geo && GeoRowKey(r) == GeoKey(g)
    ensures KeysDistinct(geo, GeoRowKey)
  {
    var summed := SummedGeoRows(Filter(gf, IsGeothermalFuel), geotypes);
    FilterKeepsKeysDistinct(summed, HasHeatInput, GeoRowKey);
    var geo := Filter(summed, HasHeatInput);
    assert forall g :: (g in gf && IsGeothermalFuel(g)
      && GroupTotal(Filter(gf, IsGeothermalFuel), GeoKey, FuelConsumed)(GeoKey(g)) > 0.0) ==>
      exists r :: r in geo && GeoRowKey(r) == GeoKey(g) by {
      forall g | g in gf && IsGeothermalFuel(g)
        && GroupTotal(Filter(gf, IsGeothermalFuel), GeoKey, FuelConsumed)(GeoKey(g)) > 0.0
        ensures exists r :: r in geo && GeoRowKey(r) == GeoKey(g)
      {
        assert g in Filter(gf, IsGeothermalFuel);
        var r :| r in summed && GeoRowKey(r) == GeoKey(g);
        assert r in geo;
      }
    }
    geo
  }

  // ---------------------------------------------------------------- geotype re-assignment

  /** The six re-assignments, in the order the source applies them. */
  datatype GeotypeRule =
    | FlashAlsoBinary   // multi-type plant, EPA flash, EIA binary turbine: binary
    | BinaryAlsoSteam   // multi-type plant, EPA binary, EIA steam turbine: flash
    | BinaryTurbine     // EPA flash or steam, EIA binary turbine: binary
    | SteamTurbine      // EPA binary, EIA steam turbine: flash
    | MissingBinary     // no EPA geotype, EIA binary turbine: binary
    | MissingSteam      // no EPA geotype, EIA steam turbine: flash

  const GeotypeRules: seq<GeotypeRule> :=
    [FlashAlsoBinary, BinaryAlsoSteam, BinaryTurbine, SteamTurbine, MissingBinary, MissingSteam]

  /** One masked `.loc` assignment applied to one row. */
  function ApplyRule(rule: GeotypeRule, multiType: bool, r: GeoRow): (s: GeoRow)
    ensures s == r.(geotypeCode := s.geotypeCode)
  {
    var g := r.geotypeCode;
    var pm := r.primeMoverCode;
    var code := match rule
      case FlashAlsoBinary => if multiType && g == Some("F") && pm == "BT" then Some("B") else g
      case BinaryAlsoSteam => if multiType && g == Some("B") && pm == "ST" then Some("F") else g
      case BinaryTurbine => if pm == "BT" && (g == Some("F") || g == Some("S")) then Some("B") else g
      case SteamTurbine => if pm == "ST" && g == Some("B") then Some("F") else g
      case MissingBinary => if g.None? && pm == "BT" then Some("B") else g
      case MissingSteam => if g.None? && pm == "ST" then Some("F") else g;
    r.(geotypeCode := code)
  }

  /** The rules applied one after the other. */
  function ApplyRules(rules: seq<GeotypeRule>, multiType: bool, r: GeoRow): (s: GeoRow)
    ensures s == r.(geotypeCode := s.geotypeCode)
  {
    if rules == [] then r
    else ApplyRule(rules[|rules| - 1], multiType, ApplyRules(rules[..|rules| - 1], multiType, r))
  }

  /** Plants reporting heat input through more than one prime mover. */
  function MultiTypePlants(geo: seq<GeoRow>): set<int>
  {
    set r, s | r in geo && s in geo && r.plantIdEia == s.plantIdEia && r.primeMoverCode != s.primeMoverCode :: r.plantIdEia
  }

  /** The geotype a row ends with after all six rules. */
  function Reassigned(multiTypePlants: set<int>, r: GeoRow): GeoRow
  {
    ApplyRules(GeotypeRules, r.plantIdEia in multiTypePlants, r)
  }

  /** One masked assignment over the whole table. */
  method ApplyRuleToAll(geo: array<GeoRow>, rule: GeotypeRule, multiTypePlants: set<int>)
    modifies geo
    ensures forall i :: 0 <= i < geo.Length ==>
      geo[i] == ApplyRule(rule, old(geo[i]).plantIdEia in multiTypePlants, old(geo[i]))
  {
    for i := 0 to geo.Length
      invariant forall j :: 0 <= j < i ==>
        geo[j] == ApplyRule(rule, old(geo[j]).plantIdEia in multiTypePlants, old(geo[j]))
      invariant forall j :: i <= j < geo.Length ==> geo[j] == old(geo[j])
    {
      geo[i] := ApplyRule(rule, geo[i].plantIdEia in multiTypePlants, geo[i]);
    }
  }

  /** The six assignments of the source, in order, on the table in place. */
  method ReassignGeotypes(geo: array<GeoRow>, multiTypePlants: set<int>)
    modifies geo
    ensures forall i :: 0 <= i < geo.Length ==> geo[i] == Reassigned(multiTypePlants, old(geo[i]))
  {
    for k := 0 to |GeotypeRules|
      invariant forall i :: 0 <= i < geo.Length ==>
        geo[i] == ApplyRules(GeotypeRules[..k], old(geo[i]).plantIdEia in multiTypePlants, old(geo[i]))
    {
      ApplyRuleToAll(geo, GeotypeRules[k], multiTypePlants);
      assert GeotypeRules[..k + 1][..k] == GeotypeRules[..k];
    }
    assert GeotypeRules[..|GeotypeRules|] == GeotypeRules;
  }

  /** Applying one more rule of the list. */
  lemma ApplyRulesStep(k: nat, multiType: bool, r: GeoRow)
    requires k < |GeotypeRules|
    ensures ApplyRules(GeotypeRules[..k + 1], multiType, r)
         == ApplyRule(GeotypeRules[k], multiType, ApplyRules(GeotypeRules[..k], multiType, r))
  {
    assert GeotypeRules[..k + 1][..k] == GeotypeRules[..k];
  }

  /** The six rules written out in order. */
  lemma ApplyRulesInOrder(multiType: bool, r: GeoRow)
    ensures ApplyRules(GeotypeRules, multiType, r) ==
      ApplyRule(MissingSteam, multiType,
        ApplyRule(MissingBinary, multiType,
          ApplyRule(SteamTurbine, multiType,
            ApplyRule(BinaryTurbine, multiType,
              ApplyRule(BinaryAlsoSteam, multiType,
                ApplyRule(FlashAlsoBinary, multiType, r))))))
  {
    assert GeotypeRules[..0] == [];
    ApplyRulesStep(0, multiType, r);
    ApplyRulesStep(1, multiType, r);
    ApplyRulesStep(2, multiType, r);
    ApplyRulesStep(3, multiType, r);
    ApplyRulesStep(4, multiType, r);
    ApplyRulesStep(5, multiType, r);
    assert GeotypeRules[..6] == GeotypeRules;
  }

  /** A binary-turbine row with any of the known geotypes or none ends as binary. */
  lemma BinaryTurbineEndsBinary(multiType: bool, r: GeoRow)
    requires r.primeMoverCode == "BT"
    requires r.geotypeCode in {None, Some("F"), Some("S"), Some("B")}
    ensures ApplyRules(GeotypeRules, multiType, r).geotypeCode == Some("B")
  {
    ApplyRulesInOrder(multiType, r);
  }

  /** A steam-turbine row never ends as binary; one that was binary or had no geotype ends as flash. */
  lemma SteamTurbineNeverBinary(multiType: bool, r: GeoRow)
    requires r.primeMoverCode == "ST"
    ensures ApplyRules(GeotypeRules, multiType, r).geotypeCode != Some("B")
    ensures r.geotypeCode in {None, Some("B")} ==> ApplyRules(GeotypeRules, multiType, r).geotypeCode == Some("F")
    ensures r.geotypeCode !in {None, Some("B")} ==> ApplyRules(GeotypeRules, multiType, r) == r
  {
    ApplyRulesInOrder(multiType, r);
  }

  /** Rows of any other prime mover keep their geotype. */
  lemma OtherPrimeMoversUnchanged(multiType: bool, r: GeoRow)
    requires r.primeMoverCode != "BT" && r.primeMoverCode != "ST"
    ensures ApplyRules(GeotypeRules, multiType, r) == r
  {
    ApplyRulesInOrder(multiType, r);
  }

  /** The two multi-type rules change nothing the four general rules would not: the
      outcome is the same whether or not the plant has several prime movers. */
  lemma MultiTypeRulesAreRedundant(r: GeoRow)
    ensures ApplyRules(GeotypeRules, true, r) == ApplyRules(GeotypeRules, false, r)
  {
    ApplyRulesInOrder(true, r);
    ApplyRulesInOrder(false, r);
  }

  // ---------------------------------------------------------------- weighted emission factor

  function GeoPlantMonthIs(plant: int, month: int): GeoRow -> bool
  {
    (r: GeoRow) => r.plantIdEia == plant && r.reportDate == month
  }

  function GeoFuel(r: GeoRow): real
  {
    r.fuelConsumedMmbtu
  }

  /** The rows of one plant-month. */
  function GeoGroup(geo: seq<GeoRow>, plant: int, month: int): seq<GeoRow>
  {
    Filter(geo, GeoPlantMonthIs(plant, month))
  }

  /** Total heat input of a plant-month, the denominator of each row's fuel fraction. */
  function PlantMonthHeat(geo: seq<GeoRow>, plant: int, month: int): real
  {
    SumOf(GeoGroup(geo, plant, month), GeoFuel)
  }

  /** A geotype's factor in tons of CO2 per mmbtu (the table is in pounds: divided by 2000);
      null when the geotype is null or not in the table. */
  function TonsPerMmbtu(efLbPerMmbtu: map<string, real>, geotype: Option<string>): (ef: Option<real>)
    ensures ef.Some? <==> geotype.Some? && geotype.value in efLbPerMmbtu
    ensures ef.Some? ==> ef.value * 2000.0 == efLbPerMmbtu[geotype.value]
  {
    if geotype.Some? && geotype.value in efLbPerMmbtu then Some(efLbPerMmbtu[geotype.value] / 2000.0) else None
  }

  /** A row's `fuel_frac * co2_tons_per_mmbtu`; a NaN product (no factor) is skipped by the
      group sum and so counts as zero. */
  function WeightedTerm(frac: GeoRow -> real, efLbPerMmbtu: map<string, real>): GeoRow -> real
  {
    (r: GeoRow) => frac(r) * ValueOr0(TonsPerMmbtu(efLbPerMmbtu, r.geotypeCode))
  }

  /** The heat-input-weighted emission factor of a plant-month. */
  function WeightedGeoEf(geo: seq<GeoRow>, efLbPerMmbtu: map<string, real>, plant: int, month: int): real
  {
    SumOf(GeoGroup(geo, plant, month), WeightedTerm(FuelFraction(PlantMonthHeat(geo, plant, month)), efLbPerMmbtu))
  }

  /** A row's share of its plant-month's heat input; a 0/0 share is NaN and so counts as zero. */
  function FuelFraction(total: real): GeoRow -> real
  {
    (r: GeoRow) => if total != 0.0 then r.fuelConsumedMmbtu / total else 0.0
  }

  /** The fuel fractions of a plant-month with heat input add up to one. */
  lemma FuelFractionsSumToOne(geo: seq<GeoRow>, plant: int, month: int)
    requires PlantMonthHeat(geo, plant, month) != 0.0
    ensures SumOf(GeoGroup(geo, plant, month), FuelFraction(PlantMonthHeat(geo, plant, month))) == 1.0
  {
    var total := PlantMonthHeat(geo, plant, month);
    SumOfScale(GeoGroup(geo, plant, month), GeoFuel, FuelFraction(total), 1.0 / total);
  }

  /** The row's geotype has a factor, and it lies between lo and hi pounds per mmbtu. */
  predicate FactorBetween(efLbPerMmbtu: map<string, real>, r: GeoRow, lo: real, hi: real)
  {
    r.geotypeCode.Some? && r.geotypeCode.value in efLbPerMmbtu && lo <= efLbPerMmbtu[r.geotypeCode.value] <= hi
  }

  /** A row's weighted term lies between its fraction times the two bounds in tons. */
  lemma WeightedTermBetween(frac: GeoRow -> real, efLbPerMmbtu: map<string, real>, r: GeoRow, lo: real, hi: real)
    requires frac(r) >= 0.0 && FactorBetween(efLbPerMmbtu, r, lo, hi)
    ensures (lo / 2000.0) * frac(r) <= WeightedTerm(frac, efLbPerMmbtu)(r) <= (hi / 2000.0) * frac(r)
  {
    var t := efLbPerMmbtu[r.geotypeCode.value] / 2000.0;
    assert WeightedTerm(frac, efLbPerMmbtu)(r) == frac(r) * t;
    assert frac(r) * t - (lo / 2000.0) * frac(r) == frac(r) * (t - lo / 2000.0);
    assert (hi / 2000.0) * frac(r) - frac(r) * t == frac(r) * (hi / 2000.0 - t);
  }

  /** When every row of a plant-month has a factor between lo and hi pounds per mmbtu and
      all heat inputs are positive, the weighted factor lies between lo/2000 and hi/2000 tons. */
  lemma WeightedGeoEfBetween(geo: seq<GeoRow>, efLbPerMmbtu: map<string, real>, plant: int, month: int, lo: real, hi: real)
    requires GeoGroup(geo, plant, month) != []
    requires forall r :: r in geo ==> r.fuelConsumedMmbtu > 0.0
    requires forall r :: r in GeoGroup(geo, plant, month) ==>
      r.geotypeCode.Some? && r.geotypeCode.value in efLbPerMmbtu
      && lo <= efLbPerMmbtu[r.geotypeCode.value] <= hi
    ensures lo / 2000.0 <= WeightedGeoEf(geo, efLbPerMmbtu, plant, month) <= hi / 2000.0
  {
    var group := GeoGroup(geo, plant, month);
    var total := PlantMonthHeat(geo, plant, month);
    assert total > 0.0 by {
      SumOfPositive(group, GeoFuel);
    }
    var frac := FuelFraction(total);
    forall r | r in group ensures frac(r) >= 0.0 && FactorBetween(efLbPerMmbtu, r, lo, hi) {
      assert frac(r) == r.fuelConsumedMmbtu / total;
    }
    FuelFractionsSumToOne(geo, plant, month);
    WeightedSumAtLeast(group, frac, efLbPerMmbtu, lo, hi);
    WeightedSumAtMost(group, frac, efLbPerMmbtu, lo, hi);
  }

  lemma WeightedSumAtLeast(group: seq<GeoRow>, frac: GeoRow -> real, efLbPerMmbtu: map<string, real>, lo: real, hi: real)
    requires forall r :: r in group ==> frac(r) >= 0.0 && FactorBetween(efLbPerMmbtu, r, lo, hi)
    ensures (lo / 2000.0) * SumOf(group, frac) <= SumOf(group, WeightedTerm(frac, efLbPerMmbtu))
  {
    var term := WeightedTerm(frac, efLbPerMmbtu);
    forall r | r in group ensures (lo / 2000.0) * frac(r) <= term(r) {
      WeightedTermBetween(frac, efLbPerMmbtu, r, lo, hi);
    }
    SumOfAboveScaled(group, frac, term, lo / 2000.0);
  }

  lemma WeightedSumAtMost(group: seq<GeoRow>, frac: GeoRow -> real, efLbPerMmbtu: map<string, real>, lo: real, hi: real)
    requires forall r :: r in group ==> frac(r) >= 0.0 && FactorBetween(efLbPerMmbtu, r, lo, hi)
    ensures SumOf(group, WeightedTerm(frac, efLbPerMmbtu)) <= (hi / 2000.0) * SumOf(group, frac)
  {
    var term := WeightedTerm(frac, efLbPerMmbtu);
    forall r | r in group ensures term(r) <= (hi / 2000.0) * frac(r) {
      WeightedTermBetween(frac, efLbPerMmbtu, r, lo, hi);
    }
    SumOfBelowScaled(group, frac, term, hi / 2000.0);
  }

  /** A non-empty sum of positive values is positive. */
  lemma {:induction false} SumOfPositive(rows: seq<GeoRow>, f: GeoRow -> real)
    requires rows != []
    requires forall r :: r in rows ==> f(r) > 0.0
    ensures SumOf(rows, f) > 0.0
  {
    if |rows| > 1 {
      SumOfPositive(rows[1..], f);
    } else {
      assert rows[1..] == [];
    }
  }

  // ---------------------------------------------------------------- the factor table

  function PlantMonths(geo: seq<GeoRow>): set<(int, int)>
  {
    set r | r in geo :: (r.plantIdEia, r.reportDate)
  }

  function EiaPlants(geo: seq<GeoRow>): set<int>
  {
    set r | r in geo :: r.plantIdEia
  }

  /** Plants in the EPA geotype table that EIA-923 reports no geothermal heat input for. */
  function MissingPlants(geo: seq<GeoRow>, geotypes: seq<GeotypeRow>): set<int>
  {
    set t | t in geotypes && t.plantIdEia !in EiaPlants(geo) :: t.plantIdEia
  }

  /** Every month of every plant EIA-923 misses. */
  function MissingPlantMonths(geo: seq<GeoRow>, geotypes: seq<GeotypeRow>, months: set<int>): (keys: set<(int, int)>)
    ensures forall k :: k in keys <==> k.0 in MissingPlants(geo, geotypes) && k.1 in months
  {
    var keys := set p, m | p in MissingPlants(geo, geotypes) && m in months :: (p, m);
    assert forall p, m :: p in MissingPlants(geo, geotypes) && m in months ==> (p, m) in keys;
    keys
  }

  /** The factor of every plant-month: the weighted factor where EIA-923 has heat input, and
      the plain factor of the EPA geotype, in every month, for the plants EIA-923 misses. */
  function GeothermalEmissionFactors(geo: seq<GeoRow>, geotypes: seq<GeotypeRow>, efLbPerMmbtu: map<string, real>, months: set<int>)
    : (efs: map<(int, int), Option<real>>)
    ensures forall k :: k in efs <==> k in PlantMonths(geo) || (k.0 in MissingPlants(geo, geotypes) && k.1 in months)
    ensures forall k :: k in PlantMonths(geo) ==> efs[k] == Some(WeightedGeoEf(geo, efLbPerMmbtu, k.0, k.1))
    ensures forall k :: k in efs && k !in PlantMonths(geo) ==>
      efs[k] == TonsPerMmbtu(efLbPerMmbtu, PlantGeotype(geotypes, k.0))
  {
    EpaFactors(geo, geotypes, efLbPerMmbtu, months) + EiaFactors(geo, efLbPerMmbtu)
  }

  /** The weighted factor of each plant-month EIA-923 reports. */
  function EiaFactors(geo: seq<GeoRow>, efLbPerMmbtu: map<string, real>): (efs: map<(int, int), Option<real>>)
    ensures forall k :: k in efs <==> k in PlantMonths(geo)
    ensures forall k :: k in efs ==> efs[k] == Some(WeightedGeoEf(geo, efLbPerMmbtu, k.0, k.1))
  {
    map k | k in PlantMonths(geo) :: Some(WeightedGeoEf(geo, efLbPerMmbtu, k.0, k.1))
  }

  /** The geotype factor, in every month, of each plant EIA-923 misses. */
  function EpaFactors(geo: seq<GeoRow>, geotypes: seq<GeotypeRow>, efLbPerMmbtu: map<string, real>, months: set<int>)
    : (efs: map<(int, int), Option<real>>)
    ensures forall k :: k in efs <==> k.0 in MissingPlants(geo, geotypes) && k.1 in months
    ensures forall k :: k in efs ==> efs[k] == TonsPerMmbtu(efLbPerMmbtu, PlantGeotype(geotypes, k.0))
  {
    var missing := MissingPlantMonths(geo, geotypes, months);
    map k | k in missing :: TonsPerMmbtu(efLbPerMmbtu, PlantGeotype(geotypes, k.0))
  }

  /** All geotypes re-assigned, as `ReassignGeotypes` leaves the table. */
  function ReassignedAll(rows: seq<GeoRow>): (geo: seq<GeoRow>)
    ensures |geo| == |rows|
    ensures forall i :: 0 <= i < |rows| ==> geo[i] == Reassigned(MultiTypePlants(rows), rows[i])
  {
    seq(|rows|, i requires 0 <= i < |rows| => Reassigned(MultiTypePlants(rows), rows[i]))
  }

  /** calculate_geothermal_emission_factors with the EIA-923 and EPA tables passed in. */
  method CalculateGeothermalEmissionFactors(gf: seq<GenerationFuelRow>, geotypes: seq<GeotypeRow>,
                                            efLbPerMmbtu: map<string, real>, months: set<int>)
    returns (efs: map<(int, int), Option<real>>)
    ensures efs == GeothermalEmissionFactors(ReassignedAll(GeoInEia(gf, geotypes)), geotypes, efLbPerMmbtu, months)
  {
    var rows := GeoInEia(gf, geotypes);
    var reassigned := ReassignInCopy(rows);
    efs := GeothermalEmissionFactors(reassigned, geotypes, efLbPerMmbtu, months);
  }

  /** The summed rows copied into the frame the `.loc` assignments update, then re-assigned. */
  method ReassignInCopy(rows: seq<GeoRow>) returns (geo: seq<GeoRow>)
    ensures geo == ReassignedAll(rows)
  {
    var a := new GeoRow[|rows|](i requires 0 <= i < |rows| => rows[i]);
    ReassignGeotypes(a, MultiTypePlants(rows));
    geo := a[..];
  }
}
