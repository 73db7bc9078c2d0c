/** The lookup and fallback chains of src/data_cleaning.py: the EPA-to-EIA plant id crosswalk,
    the CEMS/EIA-only data-source tag of allocated generator-months, the balancing-authority
    assignment with its manual corrections, the time-zone name lookup, and the static fuel-code
    maps. Loaded tables are parameters. */
module Lookups {
  import opened Common
  import opened Tables
  import opened Co2Imputation
  import opened GrossToNet

  // ---------------------------------------------------------------- plant ids

  /** A crosswalk row usable by crosswalk_epa_eia_plant_ids: complete in the four columns it
      keeps, with an EIA plant id different from the EPA one. */
  predicate RenumberingRow(c: CrosswalkRow)
  {
    c.eiaPlantId.Some? && c.eiaGeneratorId.Some? && c.camdPlantId != c.eiaPlantId.value
  }

  function RenumbersUnit(epaPlant: int, unitId: string): CrosswalkRow -> bool
  {
    (c: CrosswalkRow) => RenumberingRow(c) && c.camdPlantId == epaPlant && c.camdUnitId == unitId
  }

  /** The EIA plant id of an EPA unit: the one a renumbering crosswalk row gives it, or the EPA
      id itself where there is none. */
  function EiaPlantIdFor(epaPlant: int, unitId: string, psdc: seq<CrosswalkRow>): (eiaPlant: int)
    ensures eiaPlant == epaPlant <==> forall c :: c in psdc ==> !RenumbersUnit(epaPlant, unitId)(c)
    ensures eiaPlant != epaPlant ==>
      exists c :: c in psdc && RenumbersUnit(epaPlant, unitId)(c) && c.eiaPlantId == Some(eiaPlant)
  {
    var row := First(psdc, RenumbersUnit(epaPlant, unitId));
    if row.Some? then row.value.eiaPlantId.value else epaPlant
  }

  /** crosswalk_epa_eia_plant_ids: every CEMS row with its EIA plant id filled from the EPA
      plant and unit; nothing else changes. */
  function CrosswalkEpaEiaPlantIds(cems: seq<CemsRow>, psdc: seq<CrosswalkRow>): (out: seq<CemsRow>)
    ensures |out| == |cems|
    ensures forall i :: 0 <= i < |cems| ==>
      out[i] == cems[i].(plantIdEia := EiaPlantIdFor(cems[i].plantIdEpa, cems[i].unitId, psdc))
  {
    seq(|cems|, i requires 0 <= i < |cems| => cems[i].(plantIdEia := EiaPlantIdFor(cems[i].plantIdEpa, cems[i].unitId, psdc)))
  }

  /** A crosswalk that never renumbers gives every CEMS row its EPA plant id as EIA id. */
  lemma CrosswalkWithoutRenumberingKeepsEpaIds(cems: seq<CemsRow>, psdc: seq<CrosswalkRow>)
    requires forall c :: c in psdc ==> !RenumberingRow(c)
    ensures forall i :: 0 <= i < |cems| ==> CrosswalkEpaEiaPlantIds(cems, psdc)[i].plantIdEia == cems[i].plantIdEpa
  {
    var out := CrosswalkEpaEiaPlantIds(cems, psdc);
    forall i | 0 <= i < |cems| ensures out[i].plantIdEia == cems[i].plantIdEpa {
      assert forall c :: c in psdc ==> !RenumbersUnit(cems[i].plantIdEpa, cems[i].unitId)(c);
    }
  }

  // ---------------------------------------------------------------- data source

  /** A row of the allocated generator-month table before it is tagged. */
  datatype GenFuelRow = GenFuelRow(
    plantIdEia: int,
    generatorId: Option<string>,
    reportDate: int,
    netGenerationMwh: Option<real>)

  /** A (plant_id_eia, generator_id, report_date) key; a null generator is a key of its own. */
  type GeneratorMonth = (int, Option<string>, int)

  /** The EIA plant of a crosswalk row in crosswalk_epa_unit_to_eia_generator_id: the EIA id,
      or the EPA id where it is null. */
  function UnitGeneratorPlant(c: CrosswalkRow): int
  {
    if c.eiaPlantId.Some? then c.eiaPlantId.value else c.camdPlantId
  }

  function PairsUnit(plant: int, unitId: string): CrosswalkRow -> bool
  {
    (c: CrosswalkRow) => UnitGeneratorPlant(c) == plant && c.camdUnitId == unitId
  }

  /** The generator ids a unit is crosswalked to; a unit without a crosswalk row keeps a null
      generator (the left merge). */
  function UnitGenerators(plant: int, unitId: string, psdc: seq<CrosswalkRow>): (gens: seq<Option<string>>)
    ensures forall g :: g in gens <==>
      (exists c :: c in psdc && PairsUnit(plant, unitId)(c) && c.eiaGeneratorId == g)
      || (g.None? && forall c :: c in psdc ==> !PairsUnit(plant, unitId)(c))
  {
    var rows := Filter(psdc, PairsUnit(plant, unitId));
    if rows == [] then [None]
    else
      var gens := seq(|rows|, i requires 0 <= i < |rows| => rows[i].eiaGeneratorId);
      assert forall g :: g in gens <==> exists c :: c in rows && c.eiaGeneratorId == g by {
        forall g | g in gens ensures exists c :: c in rows && c.eiaGeneratorId == g {
          var i :| 0 <= i < |gens| && gens[i] == g;
          assert rows[i] in rows;
        }
        forall g | exists c :: c in rows && c.eiaGeneratorId == g ensures g in gens {
          var c :| c in rows && c.eiaGeneratorId == g;
          var i :| 0 <= i < |rows| && rows[i] == c;
          assert gens[i] == g;
        }
      }
      assert rows[0] in rows;
      gens
  }

  /** The generator-months a CEMS hour stands for. */
  function GeneratorMonthsOf(r: CemsRow, psdc: seq<CrosswalkRow>): (keys: seq<GeneratorMonth>)
    ensures forall k :: k in keys <==>
      (k.0 == r.plantIdEia && k.2 == r.reportDate && k.1 in UnitGenerators(r.plantIdEia, r.unitId, psdc))
  {
    var gens := UnitGenerators(r.plantIdEia, r.unitId, psdc);
    var keys := seq(|gens|, i requires 0 <= i < |gens| => (r.plantIdEia, gens[i], r.reportDate));
    assert forall k :: k in keys ==> k.1 in gens by {
      forall k | k in keys ensures k.1 in gens {
        var i :| 0 <= i < |keys| && keys[i] == k;
      }
    }
    assert forall g :: g in gens ==> (r.plantIdEia, g, r.reportDate) in keys by {
      forall g | g in gens ensures (r.plantIdEia, g, r.reportDate) in keys {
        var i :| 0 <= i < |gens| && gens[i] == g;
        assert keys[i] == (r.plantIdEia, g, r.reportDate);
      }
    }
    keys
  }

  /** The generator-months with hourly CEMS data (`generator_months_in_cems`). */
  function GeneratorMonthsInCems(cems: seq<CemsRow>, psdc: seq<CrosswalkRow>): (keys: seq<GeneratorMonth>)
    ensures forall k :: k in keys <==> exists r :: r in cems && k in GeneratorMonthsOf(r, psdc)
  {
    if cems == [] then []
    else
      var rest := GeneratorMonthsInCems(cems[1..], psdc);
      assert forall r :: r in cems <==> r == cems[0] || r in cems[1..];
      GeneratorMonthsOf(cems[0], psdc) + rest
  }

  /** A generator-month reported to CEMS: some hour of the plant in that month belongs to a unit
      crosswalked to the generator (or, for a null generator, to a unit with no crosswalk row). */
  predicate ReportedToCems(g: GenFuelRow, cems: seq<CemsRow>, psdc: seq<CrosswalkRow>)
  {
    exists r :: r in cems && r.plantIdEia == g.plantIdEia && r.reportDate == g.reportDate
      && g.generatorId in UnitGenerators(r.plantIdEia, r.unitId, psdc)
  }

  function Tagged(g: GenFuelRow, inCems: seq<GeneratorMonth>): AllocatedRow
  {
    var source := if (g.plantIdEia, g.generatorId, g.reportDate) in inCems then "cems" else "eia_only";
    AllocatedRow(g.plantIdEia, g.reportDate, source, g.netGenerationMwh)
  }

  /** identify_emissions_data_source: every allocated generator-month tagged "cems" or
      "eia_only", one output row per input row. */
  function IdentifyEmissionsDataSource(cems: seq<CemsRow>, psdc: seq<CrosswalkRow>, genFuel: seq<GenFuelRow>)
    : (out: seq<AllocatedRow>)
    ensures |out| == |genFuel|
    ensures forall i :: 0 <= i < |genFuel| ==>
      out[i].plantIdEia == genFuel[i].plantIdEia && out[i].reportDate == genFuel[i].reportDate
      && out[i].netGenerationMwh == genFuel[i].netGenerationMwh
  {
    var inCems := GeneratorMonthsInCems(cems, psdc);
    seq(|genFuel|, i requires 0 <= i < |genFuel| => Tagged(genFuel[i], inCems))
  }

  /** A row is tagged "cems" exactly when its generator-month is reported to CEMS, and
      "eia_only" otherwise. */
  lemma {:induction false} DataSourceIsCemsIff(cems: seq<CemsRow>, psdc: seq<CrosswalkRow>, genFuel: seq<GenFuelRow>, i: int)
    requires 0 <= i < |genFuel|
    ensures var out := IdentifyEmissionsDataSource(cems, psdc, genFuel);
      (out[i].dataSource == "cems" <==> ReportedToCems(genFuel[i], cems, psdc))
      && (out[i].dataSource == "eia_only" <==> !ReportedToCems(genFuel[i], cems, psdc))
  {
    var g := genFuel[i];
    var k := (g.plantIdEia, g.generatorId, g.reportDate);
    var inCems := GeneratorMonthsInCems(cems, psdc);
    if ReportedToCems(g, cems, psdc) {
      var r :| r in cems && r.plantIdEia == g.plantIdEia && r.reportDate == g.reportDate
        && g.generatorId in UnitGenerators(r.plantIdEia, r.unitId, psdc);
      assert k in GeneratorMonthsOf(r, psdc);
    }
    if k in inCems {
      var r :| r in cems && k in GeneratorMonthsOf(r, psdc);
    }
  }

  // ---------------------------------------------------------------- balancing authorities

  /** The utilities (and BA names) that stand for a BA code. */
  const UtilityAsBaCode: map<string, string> := map[
    "Hawaiian Electric Co Inc" := "HECO",
    "Avangrid Renewables Inc" := "AVRN",
    "Chugach Electric Assn Inc" := "CEA",
    "JEA" := "JEA",
    "Tampa Electric Co" := "TEC",
    "Louisville Gas & Electric Co" := "LGEE",
    "Kentucky Utilities Co" := "LGEE",
    "Puget Sound Energy Inc" := "PSEI",
    "Anchorage Municipal Light and Power" := "AMPL",
    "Sacramento Municipal Util Dist" := "BANC",
    "Los Angeles Department of Water & Power" := "LDWP",
    "Arizona Public Service Co" := "AZPS",
    "Florida Power & Light Co" := "FPL",
    "PUD No 1 of Chelan County" := "CHPD",
    "Public Service Co of NM" := "PNM",
    "Seminole Electric Cooperative Inc" := "SEC",
    "South Carolina Electric&Gas Company" := "SCEG",
    "Bonneville Power Administration" := "BPAT",
    "Duke Energy Progress - (NC)" := "CPLE"]

  /** Plants whose BA code is corrected by hand; "None" means no BA. */
  const ManualBaCorrections: map<int, string> := map[
    57698 := "BANC",
    7966 := "SWPP",
    6292 := "None",
    7367 := "None",
    55966 := "None",
    6283 := "None",
    57206 := "None",
    10093 := "None"]

  /** A plant row of EIA-860 with the columns the BA assignment reads. */
  datatype PlantBaRow = PlantBaRow(
    plantIdEia: int,
    baCode: Option<string>,
    baName: Option<string>,
    state: Option<string>,
    utilityName: Option<string>,
    transmissionOwner: Option<string>)

  /** `Series.map(dict)`: a name outside the dictionary, or a null, gives a null. */
  function MapName(m: map<string, string>, name: Option<string>): (code: Option<string>)
    ensures code.Some? <==> name.Some? && name.value in m
    ensures code.Some? ==> code.value == m[name.value]
  {
    if name.Some? && name.value in m then Some(m[name.value]) else None
  }

  /** `a.fillna(b)` on a nullable string: b where a is null. */
  function OrElse(a: Option<string>, b: Option<string>): Option<string>
  {
    if a.Some? then a else b
  }

  /** The BA code before the manual corrections: EIA's code, else the one the BA name, the
      utility name or the transmission owner stands for, in that order. */
  function FilledBaCode(p: PlantBaRow): (ba: Option<string>)
    ensures p.baCode.Some? ==> ba == p.baCode
    ensures p.baCode.None? ==>
      (ba == OrElse(MapName(UtilityAsBaCode, p.baName),
                    OrElse(MapName(UtilityAsBaCode, p.utilityName), MapName(UtilityAsBaCode, p.transmissionOwner))))
  {
    var byName := OrElse(p.baCode, MapName(UtilityAsBaCode, p.baName));
    var byUtility := OrElse(byName, MapName(UtilityAsBaCode, p.utilityName));
    OrElse(byUtility, MapName(UtilityAsBaCode, p.transmissionOwner))
  }

  /** The final BA code of a plant row: the manual correction where there is one, and "None"
      turned into a null. */
  function BaCode(p: PlantBaRow): (ba: Option<string>)
    ensures ba != Some("None")
    ensures p.plantIdEia in ManualBaCorrections ==>
      ba == (if ManualBaCorrections[p.plantIdEia] == "None" then None else Some(ManualBaCorrections[p.plantIdEia]))
    ensures p.plantIdEia !in ManualBaCorrections && p.baCode.Some? && p.baCode != Some("None") ==> ba == p.baCode
  {
    var ba := if p.plantIdEia in ManualBaCorrections then Some(ManualBaCorrections[p.plantIdEia]) else FilledBaCode(p);
    if ba == Some("None") then None else ba
  }

  /** One of the plant's three names is a utility the table knows. */
  predicate NamedBy(p: PlantBaRow, name: string)
  {
    name in UtilityAsBaCode
    && (p.baName == Some(name) || p.utilityName == Some(name) || p.transmissionOwner == Some(name))
  }

  /** A plant without an EIA code gets a code only from the utility table: the code stands for
      one of its three names. */
  lemma BaCodeFromNames(p: PlantBaRow)
    requires p.plantIdEia !in ManualBaCorrections && p.baCode.None?
    ensures var ba := BaCode(p);
      ba.Some? ==> exists name :: NamedBy(p, name) && UtilityAsBaCode[name] == ba.value
  {
    var ba := BaCode(p);
    if ba.Some? {
      var n1 := MapName(UtilityAsBaCode, p.baName);
      var n2 := MapName(UtilityAsBaCode, p.utilityName);
      var n3 := MapName(UtilityAsBaCode, p.transmissionOwner);
      if n1.Some? {
        assert UtilityAsBaCode[p.baName.value] == ba.value;
      } else if n2.Some? {
        assert UtilityAsBaCode[p.utilityName.value] == ba.value;
      } else {
        assert UtilityAsBaCode[p.transmissionOwner.value] == ba.value;
      }
    }
  }

  /** The BA code and state merged onto a plant: those of the plant's first EIA-860 row, nulls
      where the plant has none. */
  datatype PlantBa = PlantBa(plantIdEia: int, baCode: Option<string>, state: Option<string>)

  function PlantRowIs(plant: int): PlantBaRow -> bool
  {
    (p: PlantBaRow) => p.plantIdEia == plant
  }

  /** assign_ba_code_to_plant for one plant id. */
  function AssignBaCodeToPlant(plant: int, plantBa: seq<PlantBaRow>): (out: PlantBa)
    ensures out.plantIdEia == plant
    ensures (forall p :: p in plantBa ==> p.plantIdEia != plant) ==> out.baCode.None? && out.state.None?
    ensures out.baCode.Some? ==> exists p :: p in plantBa && p.plantIdEia == plant && BaCode(p) == out.baCode
    ensures out.baCode != Some("None")
    ensures forall i :: (0 <= i < |plantBa| && plantBa[i].plantIdEia == plant
      && (forall j :: 0 <= j < i ==> plantBa[j].plantIdEia != plant)) ==> out == PlantBa(plant, BaCode(plantBa[i]), plantBa[i].state)
  {
    FirstIsEveryEarliest(plantBa, PlantRowIs(plant));
    var row := First(plantBa, PlantRowIs(plant));
    if row.Some? then PlantBa(plant, BaCode(row.value), row.value.state) else PlantBa(plant, None, None)
  }

  /** A manual correction decides the BA of a plant listed in EIA-860, whatever EIA reports. */
  lemma ManualCorrectionWins(plant: int, plantBa: seq<PlantBaRow>)
    requires plant in ManualBaCorrections
    requires exists p :: p in plantBa && p.plantIdEia == plant
    ensures var ba := AssignBaCodeToPlant(plant, plantBa).baCode;
      ba == (if ManualBaCorrections[plant] == "None" then None else Some(ManualBaCorrections[plant]))
  {
    var row := First(plantBa, PlantRowIs(plant));
    assert row.Some?;
  }

  // ---------------------------------------------------------------- time zones

  /** The tz names rewritten to fixed-offset zones, so that no daylight saving applies. */
  const TzToGmt: map<string, string> := map[
    "America/New_York" := "Etc/GMT+5",
    "America/Denver" := "Etc/GMT+7",
    "America/North_Dakota/New_Salem" := "Etc/GMT+6",
    "America/Chicago" := "Etc/GMT+6",
    "America/Los_Angeles" := "Etc/GMT+8",
    "America/Indiana/Indianapolis" := "Etc/GMT+5",
    "America/Phoenix" := "Etc/GMT+7",
    "America/Kentucky/Louisville" := "Etc/GMT+5",
    "America/Detroit" := "Etc/GMT+5",
    "America/Indiana/Tell_City" := "Etc/GMT+6",
    "US/Central" := "Etc/GMT+6",
    "America/Anchorage" := "Etc/GMT+9",
    "Pacific/Honolulu" := "Etc/GMT+10",
    "US/Eastern" := "Etc/GMT+5",
    "America/Boise" := "Etc/GMT+7",
    "America/Sitka" := "Etc/GMT+9",
    "US/Pacific" := "Etc/GMT+8",
    "US/Mountain" := "Etc/GMT+7",
    "US/Arizona" := "Etc/GMT+7",
    "America/Juneau" := "Etc/GMT+9",
    "America/Indiana/Vincennes" := "Etc/GMT+5",
    "America/Nome" := "Etc/GMT+9",
    "America/North_Dakota/Beulah" := "Etc/GMT+6",
    "America/Indiana/Petersburg" := "Etc/GMT+5",
    "US/Alaska" := "Etc/GMT+9",
    "US/Hawaii" := "Etc/GMT+10",
    "America/North_Dakota/Center" := "Etc/GMT+6",
    "America/Menominee" := "Etc/GMT+6"]

  /** `tz_to_gmt.get(tz, tz)`: the fixed-offset zone of a listed tz, any other tz as it is. */
  function GmtZone(tz: string): (zone: string)
    ensures tz in TzToGmt ==> zone == TzToGmt[tz]
    ensures tz !in TzToGmt ==> zone == tz
  {
    if tz in TzToGmt then TzToGmt[tz] else tz
  }

  /** Starts like an "Etc/" zone: every fixed-offset zone does, and no listed tz name does. */
  predicate EtcLike(s: string)
  {
    |s| > 0 && s[0] == 'E'
  }

  /** The lookup is idempotent: no fixed-offset zone it produces is itself rewritten. */
  lemma GmtZoneIdempotent(tz: string)
    ensures GmtZone(GmtZone(tz)) == GmtZone(tz)
  {
    assert forall k :: k in TzToGmt ==> !EtcLike(k);
    assert forall k :: k in TzToGmt ==> EtcLike(TzToGmt[k]);
  }

  // ---------------------------------------------------------------- fuel-code maps

  /** The CAMD fuel names of the crosswalk loaded by get_epa_eia_crosswalk, as EIA codes. */
  const CrosswalkFuelCodes: map<string, string> := map[
    "Pipeline Natural Gas" := "NG",
    "Coal" := "CBL",
    "Natural Gas" := "NG",
    "Other Oil" := "WO",
    "Residual Oil" := "RFO",
    "Diesel Oil" := "DFO",
    "Wood" := "WDS",
    "Other Gas" := "OG",
    "Process Gas" := "OG",
    "Petroleum Coke" := "PC",
    "Coal Refuse" := "WC",
    "Other Solid Fuel" := "OBS",
    "Tire Derived Fuel" := "TDF"]

  /** The `epa_fuel_code` column: the mapped CAMD name, null for a name outside the map. */
  function EpaFuelCode(name: Option<string>): (code: Option<string>)
    ensures code.Some? <==> name.Some? && name.value in CrosswalkFuelCodes
    ensures code.Some? ==> code.value == CrosswalkFuelCodes[name.value]
  {
    MapName(CrosswalkFuelCodes, name)
  }

  /** The two CAMD name tables disagree: generic coal is sub-bituminous in the unit fuel types
      but blended coal in the crosswalk, process gas keeps its own code in one and is other gas
      in the other, and coal refuse is known only to the crosswalk (replace keeps the name,
      map gives a null where the name is unknown). */
  lemma CamdNameTablesDisagree()
    ensures ReplaceCamdFuelType(Some("Coal")) == Some("SUB") && EpaFuelCode(Some("Coal")) == Some("CBL")
    ensures ReplaceCamdFuelType(Some("Process Gas")) == Some("PRG") && EpaFuelCode(Some("Process Gas")) == Some("OG")
    ensures ReplaceCamdFuelType(Some("Coal Refuse")) == Some("Coal Refuse") && EpaFuelCode(Some("Coal Refuse")) == Some("WC")
  {
    assert "Coal Refuse" !in CamdToEiaFuelType;
  }

  /** map_fuel_code_to_eia930_category: EIA energy source codes to EIA-930 fuel categories. */
  const Eia930Categories: map<string, string> := map[
    "DFO" := "oil",
    "WND" := "wind",
    "WAT" := "hydro",
    "NG" := "natgas",
    "BIT" := "coal",
    "SUB" := "coal",
    "LIG" := "coal",
    "PG" := "other",
    "RC" := "coal",
    "AB" := "other",
    "WDS" := "other",
    "RFO" := "oil",
    "LFG" := "other",
    "PC" := "coal",
    "SUN" := "solar",
    "OBG" := "other",
    "GEO" := "other",
    "MWH" := "other",
    "OG" := "other",
    "WO" := "oil",
    "JF" := "oil",
    "KER" := "oil",
    "OTH" := "other",
    "WC" := "coal",
    "SGC" := "other",
    "OBS" := "other",
    "TDF" := "other",
    "BFG" := "other",
    "MSB" := "other",
    "MSN" := "other",
    "SC" := "coal",
    "BLQ" := "other",
    "WH" := "other",
    "OBL" := "other",
    "SLW" := "other",
    "PUR" := "other",
    "WDL" := "other",
    "SGP" := "other"]

  /** The EIA-930 category of an energy source code, null for an unlisted code. */
  function Eia930Category(code: Option<string>): (category: Option<string>)
    ensures category.Some? <==> code.Some? && code.value in Eia930Categories
    ensures category.Some? ==> category.value in {"oil", "wind", "hydro", "natgas", "coal", "other", "solar"}
  {
    EiaCategoriesAreTheSeven();
    MapName(Eia930Categories, code)
  }

  /** Every code falls in one of the seven EIA-930 categories. */
  lemma EiaCategoriesAreTheSeven()
    ensures forall c :: c in Eia930Categories ==>
      Eia930Categories[c] in {"oil", "wind", "hydro", "natgas", "coal", "other", "solar"}
  {
  }

  /** The codes counted as coal are exactly the seven coal ranks and products. */
  lemma CoalCodes(code: string)
    ensures code in Eia930Categories && Eia930Categories[code] == "coal" <==>
      code in {"BIT", "SUB", "LIG", "RC", "PC", "WC", "SC"}
  {
  }

  /** Every code the CAMD crosswalk table produces has an EIA-930 category, except blended
      coal, which the category map does not list. */
  lemma CrosswalkCodesCategorised(name: string)
    requires name in CrosswalkFuelCodes
    ensures Eia930Category(EpaFuelCode(Some(name))).None? <==> name == "Coal"
  {
    var code := CrosswalkFuelCodes[name];
    assert EpaFuelCode(Some(name)) == Some(code);
    CrosswalkCodeListed(name);
  }

  lemma CodesWithCategories(codes: set<string>)
    requires codes == {"NG", "WO", "RFO", "DFO", "WDS", "OG", "PC", "WC", "OBS", "TDF"}
    ensures forall c :: c in codes ==> c in Eia930Categories
  {
  }

  lemma CrosswalkCodeListed(name: string)
    requires name in CrosswalkFuelCodes
    ensures CrosswalkFuelCodes[name] in Eia930Categories <==> name != "Coal"
  {
    if name == "Coal" {
      assert "CBL" !in Eia930Categories;
    } else {
      var codes := {"NG", "WO", "RFO", "DFO", "WDS", "OG", "PC", "WC", "OBS", "TDF"};
      assert CrosswalkFuelCodes[name] in codes;
      CodesWithCategories(codes);
    }
  }
}
