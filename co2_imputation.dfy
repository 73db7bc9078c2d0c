/** Filling missing hourly CO2 in CEMS (src/data_cleaning.py: get_epa_unit_fuel_types,
    calculate_co2_from_heat_content, fill_cems_missing_co2, and the unit drop of clean_cems).
    A missing value is first estimated from the unit's fuel type in the EPA-EIA crosswalk
    (heat input times the fuel's emission factor, or the plant-month geothermal factor
    when the fuel has none); the units the crosswalk does not type get the plant-month
    fuel mix of EIA-923 instead. */
module Co2Imputation {
  import opened Common
  import opened Tables

  // ---------------------------------------------------------------- unit fuel types

  /** A CEMS unit and the EIA energy source code it burns. */
  datatype UnitFuel = UnitFuel(plantIdEpa: int, unitId: string, energySourceCode: string)

  /** The CAMD fuel names that are rewritten to EIA codes; any other name is left as it is. */
  const CamdToEiaFuelType: map<string, string> := map[
    "Pipeline Natural Gas" := "NG",
    "Coal" := "SUB",
    "Residual Oil" := "RFO",
    "Other Oil" := "WO",
    "Diesel Oil" := "DFO",
    "Natural Gas" := "NG",
    "Wood" := "WDS",
    "Process Gas" := "PRG",
    "Other Gas" := "OG",
    "Petroleum Coke" := "PC",
    "Other Solid Fuel" := "OBS",
    "Tire Derived Fuel" := "TDF"]

  /** `Series.replace(dict)`: mapped names are rewritten, the rest and nulls are kept. */
  function ReplaceCamdFuelType(name: Option<string>): (code: Option<string>)
    ensures name.None? ==> code.None?
    ensures name.Some? && name.value !in CamdToEiaFuelType ==> code == name
    ensures name.Some? && name.value in CamdToEiaFuelType ==> code == Some(CamdToEiaFuelType[name.value])
  {
    if name.Some? && name.value in CamdToEiaFuelType then Some(CamdToEiaFuelType[name.value]) else name
  }

  /** The four crosswalk columns the fuel types are read from. */
  function FuelColumns(row: CrosswalkRow): (int, string, Option<string>, Option<string>)
  {
    (row.camdPlantId, row.camdUnitId, row.camdFuelType, row.eiaFuelType)
  }

  /** The EIA fuel type, filled from the translated CAMD fuel type where it is null. */
  function FilledFuelType(eia: Option<string>, camd: Option<string>): (code: Option<string>)
    ensures eia.Some? ==> code == eia
    ensures eia.None? ==> code == ReplaceCamdFuelType(camd)
  {
    if eia.Some? then eia else ReplaceCamdFuelType(camd)
  }

  /** Some crosswalk row of the unit gives it this fuel type. */
  predicate DescribedBy(u: UnitFuel, psdc: seq<CrosswalkRow>)
  {
    exists row :: row in psdc && row.camdPlantId == u.plantIdEpa && row.camdUnitId == u.unitId
      && FilledFuelType(row.eiaFuelType, row.camdFuelType) == Some(u.energySourceCode)
  }

  /** The (plant, unit, filled fuel type) of each distinct raw row whose filled fuel type is
      known (`fillna` then `dropna`), in order. */
  function KnownFuels(raw: seq<(int, string, Option<string>, Option<string>)>): (cands: seq<UnitFuel>)
    ensures forall u :: u in cands <==>
      (exists c :: c in raw && c.0 == u.plantIdEpa && c.1 == u.unitId && FilledFuelType(c.3, c.2) == Some(u.energySourceCode))
    ensures |cands| <= |raw|
  {
    if raw == [] then []
    else
      var c := raw[0];
      var code := FilledFuelType(c.3, c.2);
      var rest := KnownFuels(raw[1..]);
      assert forall x :: x in raw <==> x == c || x in raw[1..] by {
        assert raw == [c] + raw[1..];
      }
      if code.Some? then [UnitFuel(c.0, c.1, code.value)] + rest else rest
  }

  /** The distinct crosswalk fuel rows with a known fuel type, before ambiguous units are dropped.
      Duplicates are removed on the four raw columns, before the fill, so two raw rows that fill
      to the same fuel type both stay. */
  function FuelTypeCandidates(psdc: seq<CrosswalkRow>): (cands: seq<UnitFuel>)
    ensures forall u :: u in cands <==> DescribedBy(u, psdc)
    ensures |cands| <= |psdc|
  {
    KnownFuels(Distinct(FuelColumnsOf(psdc)))
  }

  /** `read_csv(usecols=...)`: the four fuel columns of every crosswalk row, in order. */
  function FuelColumnsOf(psdc: seq<CrosswalkRow>): (columns: seq<(int, string, Option<string>, Option<string>)>)
    ensures |columns| == |psdc|
    ensures forall i :: 0 <= i < |psdc| ==> columns[i] == FuelColumns(psdc[i])
    ensures forall c :: c in columns <==> exists row :: row in psdc && FuelColumns(row) == c
  {
    var columns := seq(|psdc|, i requires 0 <= i < |psdc| => FuelColumns(psdc[i]));
    assert forall c :: c in columns <==> exists row :: row in psdc && FuelColumns(row) == c by {
      forall c ensures c in columns <==> exists row :: row in psdc && FuelColumns(row) == c {
        if c in columns {
          var i :| 0 <= i < |columns| && columns[i] == c;
          assert psdc[i] in psdc;
        }
        if exists row :: row in psdc && FuelColumns(row) == c {
          var row :| row in psdc && FuelColumns(row) == c;
          var i :| 0 <= i < |psdc| && psdc[i] == row;
          assert columns[i] == c;
        }
      }
    }
    columns
  }

  /** Two crosswalk rows for unit "A" of plant 1: the first names "Coal", which is translated to
      "SUB", the second names "SUB" itself; neither has an EIA fuel type. */
  function CoalTwice(): seq<CrosswalkRow>
  {
    [CrosswalkRow(1, "A", None, None, None, None, Some("Coal"), None),
     CrosswalkRow(1, "A", None, None, None, None, Some("SUB"), None)]
  }

  /** The two rows differ on the raw columns, so both survive `drop_duplicates`, and both fill to "SUB". */
  lemma CoalTwiceCandidates()
    ensures FuelTypeCandidates(CoalTwice()) == [UnitFuel(1, "A", "SUB"), UnitFuel(1, "A", "SUB")]
  {
    var psdc := CoalTwice();
    var c0, c1 := FuelColumns(psdc[0]), FuelColumns(psdc[1]);
    assert FuelColumnsOf(psdc) == [c0, c1];
    CoalTwiceDistinct(c0, c1);
    CoalTwiceKnown(c0, c1);
  }

  lemma CoalTwiceDistinct(c0: (int, string, Option<string>, Option<string>), c1: (int, string, Option<string>, Option<string>))
    requires c0 == FuelColumns(CoalTwice()[0]) && c1 == FuelColumns(CoalTwice()[1])
    ensures Distinct([c0, c1]) == [c0, c1]
  {
    assert c0 != c1 by { assert "Coal"[0] != "SUB"[0]; }
    assert [c0, c1][..1] == [c0];
  }

  lemma CoalTwiceKnown(c0: (int, string, Option<string>, Option<string>), c1: (int, string, Option<string>, Option<string>))
    requires c0 == FuelColumns(CoalTwice()[0]) && c1 == FuelColumns(CoalTwice()[1])
    ensures KnownFuels([c0, c1]) == [UnitFuel(1, "A", "SUB"), UnitFuel(1, "A", "SUB")]
  {
    assert FilledFuelType(c1.3, c1.2) == Some("SUB") by {
      assert "SUB" !in CamdToEiaFuelType;
    }
    assert [c0, c1][1..] == [c1] && [c1][1..] == [];
  }

  /** So the unit counts as listed twice and `duplicated(keep=False)` drops it, although both rows
      give it the same fuel type. */
  lemma SameFuelTwiceDropsUnit()
    ensures EpaUnitFuelTypes(CoalTwice()) == []
  {
    var u := UnitFuel(1, "A", "SUB");
    var cands := FuelTypeCandidates(CoalTwice());
    CoalTwiceCandidates();
    assert KeyCount(cands, UnitKey(u)) == 2 by {
      assert cands[1..] == [u] && cands[1..][1..] == [];
    }
  }

  function UnitKey(u: UnitFuel): (int, string)
  {
    (u.plantIdEpa, u.unitId)
  }

  /** How many rows carry the key k. */
  function KeyCount(s: seq<UnitFuel>, k: (int, string)): nat
  {
    if s == [] then 0 else (if UnitKey(s[0]) == k then 1 else 0) + KeyCount(s[1..], k)
  }

  function KeyUniqueIn(cands: seq<UnitFuel>): UnitFuel -> bool
  {
    (u: UnitFuel) => KeyCount(cands, UnitKey(u)) == 1
  }

  /** No two rows are for the same unit. */
  predicate UniqueKeys(s: seq<UnitFuel>)
  {
    forall i, j :: 0 <= i < j < |s| ==> UnitKey(s[i]) != UnitKey(s[j])
  }

  /** get_epa_unit_fuel_types: a unit listed with two different fuel rows (`duplicated(keep=False)`)
      is dropped altogether, so every remaining unit has exactly one fuel type. */
  function EpaUnitFuelTypes(psdc: seq<CrosswalkRow>): (fuelTypes: seq<UnitFuel>)
    ensures forall u :: u in fuelTypes <==>
      u in FuelTypeCandidates(psdc) && KeyCount(FuelTypeCandidates(psdc), UnitKey(u)) == 1
    ensures UniqueKeys(fuelTypes)
  {
    var cands := FuelTypeCandidates(psdc);
    KeysUniqueAfterFilter(cands);
    Filter(cands, KeyUniqueIn(cands))
  }

  /** Keeping only the rows whose key occurs once leaves no key twice. */
  lemma KeysUniqueAfterFilter(cands: seq<UnitFuel>)
    ensures UniqueKeys(Filter(cands, KeyUniqueIn(cands)))
  {
    var kept := Filter(cands, KeyUniqueIn(cands));
    forall i, j | 0 <= i < j < |kept| ensures UnitKey(kept[i]) != UnitKey(kept[j]) {
      if UnitKey(kept[i]) == UnitKey(kept[j]) {
        assert kept[i] in kept;
        KeyCountOfTwo(kept, i, j);
        KeyCountFilter(cands, KeyUniqueIn(cands), UnitKey(kept[i]));
        assert false;
      }
    }
  }

  lemma {:induction false} KeyCountFilter(s: seq<UnitFuel>, p: UnitFuel -> bool, k: (int, string))
    ensures KeyCount(Filter(s, p), k) <= KeyCount(s, k)
  {
    if s != [] {
      KeyCountFilter(s[1..], p, k);
      var rest := Filter(s[1..], p);
      if p(s[0]) {
        assert Filter(s, p) == [s[0]] + rest;
        assert ([s[0]] + rest)[1..] == rest;
      } else {
        assert Filter(s, p) == [] + rest == rest;
      }
    }
  }

  lemma {:induction false} KeyCountOfMember(s: seq<UnitFuel>, i: nat)
    requires i < |s|
    ensures KeyCount(s, UnitKey(s[i])) >= 1
  {
    if i > 0 {
      KeyCountOfMember(s[1..], i - 1);
    }
  }

  /** Two rows with the same key count twice. */
  lemma {:induction false} KeyCountOfTwo(s: seq<UnitFuel>, i: nat, j: nat)
    requires i < j < |s| && UnitKey(s[i]) == UnitKey(s[j])
    ensures KeyCount(s, UnitKey(s[i])) >= 2
  {
    if i == 0 {
      KeyCountOfMember(s[1..], j - 1);
    } else {
      KeyCountOfTwo(s[1..], i - 1, j - 1);
    }
  }

  function UnitKeyIs(plantIdEpa: int, unitId: string): UnitFuel -> bool
  {
    (u: UnitFuel) => u.plantIdEpa == plantIdEpa && u.unitId == unitId
  }

  /** The fuel type merged onto a CEMS unit (left merge on plant_id_epa and unitid). */
  function UnitFuelLookup(fuelTypes: seq<UnitFuel>, plantIdEpa: int, unitId: string): (code: Option<string>)
    ensures code.Some? ==> UnitFuel(plantIdEpa, unitId, code.value) in fuelTypes
    ensures code.None? <==> forall u :: u in fuelTypes ==> UnitKey(u) != (plantIdEpa, unitId)
  {
    var u := First(fuelTypes, UnitKeyIs(plantIdEpa, unitId));
    if u.Some? then Some(u.value.energySourceCode) else None
  }

  /** With one fuel row per unit, the merged fuel type is that row's. */
  lemma LookupFindsTheUnitsFuel(psdc: seq<CrosswalkRow>, u: UnitFuel)
    requires u in EpaUnitFuelTypes(psdc)
    ensures UnitFuelLookup(EpaUnitFuelTypes(psdc), u.plantIdEpa, u.unitId) == Some(u.energySourceCode)
  {
    var fuelTypes := EpaUnitFuelTypes(psdc);
    var code := UnitFuelLookup(fuelTypes, u.plantIdEpa, u.unitId);
    var v := UnitFuel(u.plantIdEpa, u.unitId, code.value);
    var i :| 0 <= i < |fuelTypes| && fuelTypes[i] == u;
    var j :| 0 <= j < |fuelTypes| && fuelTypes[j] == v;
    if i < j {
      assert UnitKey(fuelTypes[i]) == UnitKey(fuelTypes[j]);
    } else if j < i {
      assert UnitKey(fuelTypes[j]) == UnitKey(fuelTypes[i]);
    }
  }

  // ---------------------------------------------------------------- the pre-step

  /** Heat input was reported (`heat_content_mmbtu > 0`; a null compares false). */
  predicate HasHeat(r: CemsRow)
  {
    r.heatContentMmbtu.Some? && r.heatContentMmbtu.value > 0.0
  }

  /** Nulls become 0, then a 0 with reported heat input becomes missing. */
  function PreStepCo2(r: CemsRow): Option<real>
  {
    var filled := if r.co2MassTons.None? then Some(0.0) else r.co2MassTons;
    if filled == Some(0.0) && HasHeat(r) then None else filled
  }

  /** The pre-step marks as missing exactly the null or zero values with heat input, and
      otherwise yields the reported value, or 0 for a null. */
  lemma PreStepMarksMissing(r: CemsRow)
    ensures PreStepCo2(r).None? <==> (r.co2MassTons.None? || r.co2MassTons == Some(0.0)) && HasHeat(r)
    ensures PreStepCo2(r).Some? && r.co2MassTons.Some? ==> PreStepCo2(r) == r.co2MassTons
    ensures PreStepCo2(r).Some? && r.co2MassTons.None? ==> PreStepCo2(r) == Some(0.0)
  {
  }

  // ---------------------------------------------------------------- the two fill rounds

  /** `DataFrame.update`: only a non-null value overwrites. */
  function Update(current: Option<real>, other: Option<real>): Option<real>
  {
    if other.Some? then other else current
  }

  /** An emission factor in tons of CO2 per mmbtu (left merge on energy_source_code). */
  function EfLookup(efs: map<string, real>, code: string): Option<real>
  {
    if code in efs then Some(efs[code]) else None
  }

  /** A plant-month geothermal factor (left merge on plant_id_eia and report_date). */
  function GeoEfLookup(geoEfs: map<(int, int), Option<real>>, plant: int, month: int): Option<real>
  {
    if (plant, month) in geoEfs then geoEfs[(plant, month)] else None
  }

  /** calculate_co2_from_heat_content for one row: heat times the fuel's factor, with the
      geothermal factor filling a missing one. */
  function Co2FromHeatContent(r: CemsRow, code: string, efs: map<string, real>, geoEfs: map<(int, int), Option<real>>): Option<real>
  {
    var ef := EfLookup(efs, code);
    Times(r.heatContentMmbtu, if ef.Some? then ef else GeoEfLookup(geoEfs, r.plantIdEia, r.reportDate))
  }

  function FuelPlantMonthIs(plant: int, month: int): GenerationFuelRow -> bool
  {
    (g: GenerationFuelRow) => g.plantIdEia == plant && g.reportDate == month
  }

  function FuelForElectricity(g: GenerationFuelRow): real
  {
    ValueOr0(g.fuelConsumedForElectricityMmbtu)
  }

  function EnergySource(g: GenerationFuelRow): string
  {
    g.energySourceCode
  }

  /** The EIA-923 rows of one plant-month. */
  function FuelMix(gf: seq<GenerationFuelRow>, plant: int, month: int): seq<GenerationFuelRow>
  {
    Filter(gf, FuelPlantMonthIs(plant, month))
  }

  /** Some row of the plant-month is for this fuel. */
  predicate BurnsFuel(rows: seq<GenerationFuelRow>, c: string)
  {
    exists g :: g in rows && g.energySourceCode == c
  }

  /** The energy source code of every row, in order. */
  function EnergySources(rows: seq<GenerationFuelRow>): (codes: seq<string>)
    ensures |codes| == |rows|
    ensures forall i :: 0 <= i < |rows| ==> codes[i] == rows[i].energySourceCode
  {
    if rows == [] then [] else [rows[0].energySourceCode] + EnergySources(rows[1..])
  }

  /** The distinct fuels of a plant-month. */
  function FuelCodes(rows: seq<GenerationFuelRow>): (codes: seq<string>)
    ensures NoDups(codes)
    ensures |codes| >= 1 <==> rows != []
  {
    var codes := Distinct(EnergySources(rows));
    assert rows != [] ==> EnergySources(rows)[0] in codes;
    codes
  }

  /** The fuels of a plant-month are exactly the fuels of its rows. */
  lemma FuelCodesMembership(rows: seq<GenerationFuelRow>)
    ensures forall g :: g in rows ==> g.energySourceCode in FuelCodes(rows)
    ensures forall c :: c in FuelCodes(rows) ==> BurnsFuel(rows, c)
  {
    var all := EnergySources(rows);
    forall g | g in rows ensures g.energySourceCode in FuelCodes(rows) {
      var i :| 0 <= i < |rows| && rows[i] == g;
      assert all[i] in all;
    }
    forall c | c in FuelCodes(rows) ensures BurnsFuel(rows, c) {
      var i :| 0 <= i < |all| && all[i] == c;
      assert rows[i] in rows;
    }
  }

  /** Total fuel for electricity of a plant-month. */
  function MixTotal(rows: seq<GenerationFuelRow>): real
  {
    SumOf(rows, FuelForElectricity)
  }

  /** Fuel for electricity of one fuel in a plant-month. */
  function FuelTotal(rows: seq<GenerationFuelRow>): string -> real
  {
    GroupTotal(rows, EnergySource, FuelForElectricity)
  }

  /** The share of each fuel as the source computes it: the float quotient of fuel over
      total, with NaN (a 0/0 share) filled with 1. A fuel figure over a zero total that is
      not itself zero stays an infinity. */
  function ShareAsWritten(fuel: string -> real, total: real): string -> Num
  {
    (c: string) => FillNa(Div(fuel(c), total), 1.0)
  }

  /** The share of each fuel with a zero total spread evenly over the plant-month's n fuels. */
  function Share(fuel: string -> real, total: real, n: nat): string -> real
  {
    (c: string) => if total != 0.0 then fuel(c) / total else if n > 0 then 1.0 / n as real else 0.0
  }

  /** `share * co2_tons_per_mmbtu` on floats; a fuel without a factor gives NaN. */
  function TermAsWritten(share: string -> Num, efs: map<string, real>): string -> Num
  {
    (c: string) => MulOpt(EfLookup(efs, c), share(c))
  }

  /** `share * co2_tons_per_mmbtu` on reals, a fuel without a factor counting zero (the NaN
      that the sum skips). */
  function ShareTimesEf(share: string -> real, efs: map<string, real>): string -> real
  {
    (c: string) => share(c) * ValueOr0(EfLookup(efs, c))
  }

  /** The weighted factor of a plant-month with the shares of the source, as a float: NaN
      when EIA-923 has no row for it (the left merge finds nothing). */
  function WeightedEfAsWritten(gf: seq<GenerationFuelRow>, efs: map<string, real>, plant: int, month: int): Num
  {
    var rows := FuelMix(gf, plant, month);
    if rows == [] then NaN
    else NumSum(FuelCodes(rows), TermAsWritten(ShareAsWritten(FuelTotal(rows), MixTotal(rows)), efs))
  }

  /** The shares WeightedEf uses for a plant-month. */
  function MixShares(rows: seq<GenerationFuelRow>): string -> real
  {
    Share(FuelTotal(rows), MixTotal(rows), |FuelCodes(rows)|)
  }

  /** The weighted factor of a plant-month with shares that always add up to one. */
  function WeightedEf(gf: seq<GenerationFuelRow>, efs: map<string, real>, plant: int, month: int): Option<real>
  {
    var rows := FuelMix(gf, plant, month);
    if rows == [] then None else Some(SumOf(FuelCodes(rows), ShareTimesEf(MixShares(rows), efs)))
  }

  /** Every fuel row of a plant-month belongs to one of its fuels. */
  lemma FuelTotalsPartition(rows: seq<GenerationFuelRow>)
    ensures SumOf(FuelCodes(rows), FuelTotal(rows)) == MixTotal(rows)
  {
    FuelCodesMembership(rows);
    GroupTotalsPartition(rows, EnergySource, FuelCodes(rows), FuelForElectricity);
  }

  /** When the plant-month burned fuel for electricity, the source's shares are finite and
      add up to one. */
  lemma SharesAsWrittenSumToOne(rows: seq<GenerationFuelRow>)
    requires MixTotal(rows) != 0.0
    ensures NumSum(FuelCodes(rows), ShareAsWritten(FuelTotal(rows), MixTotal(rows))) == Fin(1.0)
  {
    var fuel, total := FuelTotal(rows), MixTotal(rows);
    FuelTotalsPartition(rows);
    FractionsSumToOne(FuelCodes(rows), fuel, total);
    NumSumOfFinite(FuelCodes(rows), ShareAsWritten(fuel, total), Fraction(fuel, total));
  }

  /** When its total is zero, the source's shares add up to the number of fuels if every
      fuel's figure is zero, and to no number at all if some figure is not (figures that
      cancel leave that fuel an infinite share). */
  lemma SharesAsWrittenWithoutFuel(rows: seq<GenerationFuelRow>)
    requires MixTotal(rows) == 0.0
    ensures (forall c :: c in FuelCodes(rows) ==> FuelTotal(rows)(c) == 0.0) ==>
      NumSum(FuelCodes(rows), ShareAsWritten(FuelTotal(rows), MixTotal(rows))) == Fin(|FuelCodes(rows)| as real)
    ensures (exists c :: c in FuelCodes(rows) && FuelTotal(rows)(c) != 0.0) ==>
      !NumSum(FuelCodes(rows), ShareAsWritten(FuelTotal(rows), MixTotal(rows))).Fin?
  {
    var codes, fuel := FuelCodes(rows), FuelTotal(rows);
    if forall c :: c in codes ==> fuel(c) == 0.0 {
      UnitShares(codes, fuel);
    } else {
      var c :| c in codes && fuel(c) != 0.0;
      assert ShareAsWritten(fuel, 0.0)(c).Inf?;
      NumSumWithInfinity(codes, ShareAsWritten(fuel, 0.0));
    }
  }

  function One(c: string): real
  {
    1.0
  }

  lemma UnitShares(codes: seq<string>, fuel: string -> real)
    requires forall c :: c in codes ==> fuel(c) == 0.0
    ensures NumSum(codes, ShareAsWritten(fuel, 0.0)) == Fin(|codes| as real)
  {
    NumSumOfFinite(codes, ShareAsWritten(fuel, 0.0), One);
    SumOfConstant(codes, One, 1.0);
  }

  /** Where fuel was burned the corrected shares are the fractions of the total. */
  lemma SharesAgree(fuel: string -> real, total: real, n: nat, c: string)
    requires total != 0.0
    ensures Share(fuel, total, n)(c) == 1.0 * Fraction(fuel, total)(c)
  {
  }

  /** Equal shares of n fuels add up to one. */
  lemma EvenSharesSumToOne(codes: seq<string>, fuel: string -> real)
    requires |codes| > 0
    ensures SumOf(codes, Share(fuel, 0.0, |codes|)) == 1.0
  {
    var n := |codes|;
    SumOfConstant(codes, Share(fuel, 0.0, n), 1.0 / n as real);
    assert (1.0 / n as real) * n as real == 1.0;
  }

  /** The corrected shares of any plant-month that EIA-923 reports add up to one. */
  lemma SharesSumToOne(rows: seq<GenerationFuelRow>)
    requires rows != []
    ensures SumOf(FuelCodes(rows), MixShares(rows)) == 1.0
  {
    var codes := FuelCodes(rows);
    var total := MixTotal(rows);
    if total != 0.0 {
      FuelTotalsPartition(rows);
      FractionsSumToOne(codes, FuelTotal(rows), total);
      forall c | c in codes
        ensures MixShares(rows)(c) == 1.0 * Fraction(FuelTotal(rows), total)(c)
      {
        SharesAgree(FuelTotal(rows), total, |codes|, c);
      }
      SumOfScale(codes, Fraction(FuelTotal(rows), total), MixShares(rows), 1.0);
    } else {
      EvenSharesSumToOne(codes, FuelTotal(rows));
    }
  }

  /** Where the plant-month burned fuel for electricity, the source's factor is a number and
      is the corrected one. */
  lemma AsWrittenAgreesWhereFuelBurned(gf: seq<GenerationFuelRow>, efs: map<string, real>, plant: int, month: int)
    requires FuelMix(gf, plant, month) != []
    requires MixTotal(FuelMix(gf, plant, month)) != 0.0
    ensures WeightedEf(gf, efs, plant, month).Some?
    ensures WeightedEfAsWritten(gf, efs, plant, month) == Fin(WeightedEf(gf, efs, plant, month).value)
  {
    var rows := FuelMix(gf, plant, month);
    var fuel, total := FuelTotal(rows), MixTotal(rows);
    var term := TermAsWritten(ShareAsWritten(fuel, total), efs);
    var realTerm := ShareTimesEf(MixShares(rows), efs);
    forall c | c in FuelCodes(rows)
      ensures term(c) == Fin(realTerm(c)) || (term(c).NaN? && realTerm(c) == 0.0)
    {
      TermsAgree(fuel, total, |FuelCodes(rows)|, efs, c);
    }
    NumSumOfFinite(FuelCodes(rows), term, realTerm);
  }

  /** One fuel's float term is its real term, or NaN where the real term counts zero. */
  lemma TermsAgree(fuel: string -> real, total: real, n: nat, efs: map<string, real>, c: string)
    requires total != 0.0
    ensures TermAsWritten(ShareAsWritten(fuel, total), efs)(c) == Fin(ShareTimesEf(Share(fuel, total, n), efs)(c))
         || (TermAsWritten(ShareAsWritten(fuel, total), efs)(c).NaN? && ShareTimesEf(Share(fuel, total, n), efs)(c) == 0.0)
  {
    var s := fuel(c) / total;
    assert ShareAsWritten(fuel, total)(c) == Fin(s);
    assert Share(fuel, total, n)(c) == s;
    EfTimesShare(EfLookup(efs, c), s);
  }

  lemma EfTimesShare(ef: Option<real>, s: real)
    ensures MulOpt(ef, Fin(s)) == Fin(s * ValueOr0(ef)) || (ef.None? && s * ValueOr0(ef) == 0.0)
  {
  }

  /** A plant-month whose fuel figures cancel to a zero total, with a factor other than zero
      for a fuel whose figure is not zero, gets no finite factor from the source. */
  lemma CancellingMixHasNoFactor(gf: seq<GenerationFuelRow>, efs: map<string, real>, plant: int, month: int, c: string)
    requires c in FuelCodes(FuelMix(gf, plant, month))
    requires MixTotal(FuelMix(gf, plant, month)) == 0.0
    requires FuelTotal(FuelMix(gf, plant, month))(c) != 0.0
    requires c in efs && efs[c] != 0.0
    ensures !WeightedEfAsWritten(gf, efs, plant, month).Fin?
  {
    var rows := FuelMix(gf, plant, month);
    var term := TermAsWritten(ShareAsWritten(FuelTotal(rows), 0.0), efs);
    assert term(c).Inf?;
    NumSumWithInfinity(FuelCodes(rows), term);
  }

  /** The two-fuel, zero-fuel plant-month of ZeroFuelMixAddsFactors. */
  function ZeroFuelMix(): seq<GenerationFuelRow>
  {
    [GenerationFuelRow(1, "ST", 1, "NG", Some(0.0), Some(0.0)),
     GenerationFuelRow(1, "GT", 1, "DFO", Some(0.0), Some(0.0))]
  }

  function ZeroFuelMixFactors(): map<string, real>
  {
    map["NG" := 0.05, "DFO" := 0.08]
  }

  /** A sum over two keys. */
  lemma SumOfTwo(f: string -> real, x: string, y: string)
    ensures SumOf([x, y], f) == f(x) + f(y)
  {
    var pair := [x, y];
    assert pair[1..] == [y];
    assert [y][1..] == [];
    assert SumOf([y], f) == f(y) + SumOf([], f);
    assert SumOf(pair, f) == f(x) + SumOf([y], f);
  }

  /** The example plant-month is all of the example table, and it burned nothing for electricity. */
  lemma ZeroFuelMixRows()
    ensures FuelMix(ZeroFuelMix(), 1, 1) == ZeroFuelMix()
    ensures MixTotal(ZeroFuelMix()) == 0.0
  {
    FilterKeepsAll(ZeroFuelMix(), FuelPlantMonthIs(1, 1));
    SumOfConstant(ZeroFuelMix(), FuelForElectricity, 0.0);
  }

  /** The fuels of the example plant-month are NG and DFO. */
  lemma ZeroFuelMixCodes()
    ensures FuelCodes(ZeroFuelMix()) == ["NG", "DFO"]
  {
    var all := EnergySources(ZeroFuelMix());
    assert all == ["NG", "DFO"];
    assert all[..1] == ["NG"];
    assert ["NG"][..0] == [];
    assert Distinct(["NG"]) == ["NG"];
  }

  /** A plant-month of two fuels, both reporting zero fuel for electricity: the source's
      "weighted" factor is the sum of the two factors, not an average of them. */
  lemma ZeroFuelMixAddsFactors()
    ensures WeightedEfAsWritten(ZeroFuelMix(), ZeroFuelMixFactors(), 1, 1) == Fin(0.13)
  {
    var term := TermAsWritten(ShareAsWritten(FuelTotal(ZeroFuelMix()), 0.0), ZeroFuelMixFactors());
    ZeroFuelMixRows();
    ZeroFuelMixCodes();
    ZeroFuelMixTerms();
    NumSumOfTwo(term, "NG", "DFO");
  }

  /** With all figures zero, each fuel's term in the source is its full factor. */
  lemma ZeroFuelMixTerms()
    ensures TermAsWritten(ShareAsWritten(FuelTotal(ZeroFuelMix()), 0.0), ZeroFuelMixFactors())("NG") == Fin(0.05)
    ensures TermAsWritten(ShareAsWritten(FuelTotal(ZeroFuelMix()), 0.0), ZeroFuelMixFactors())("DFO") == Fin(0.08)
  {
    ZeroFuelMixFuelTotal("NG");
    ZeroFuelMixFuelTotal("DFO");
    ZeroFuelMixLookups();
  }

  /** A float sum over two keys with finite terms. */
  lemma NumSumOfTwo(f: string -> Num, x: string, y: string)
    requires f(x).Fin? && f(y).Fin?
    ensures NumSum([x, y], f) == Fin(f(x).v + f(y).v)
  {
    var pair := [x, y];
    assert pair[1..] == [y];
    assert [y][1..] == [];
    assert NumSum([y], f) == AddNum(f(y), NumSum([], f));
  }

  /** Every fuel of the example reports zero fuel for electricity. */
  lemma ZeroFuelMixFuelTotal(c: string)
    ensures FuelTotal(ZeroFuelMix())(c) == 0.0
  {
    var group := Filter(ZeroFuelMix(), KeyIs(EnergySource, c));
    SumOfConstant(group, FuelForElectricity, 0.0);
  }

  /** The corrected shares average the two factors of the same plant-month. */
  lemma ZeroFuelMixAveragesFactors()
    ensures WeightedEf(ZeroFuelMix(), ZeroFuelMixFactors(), 1, 1) == Some(0.065)
  {
    var term := ShareTimesEf(MixShares(ZeroFuelMix()), ZeroFuelMixFactors());
    ZeroFuelMixRows();
    ZeroFuelMixCodes();
    ZeroFuelMixEvenShares();
    ZeroFuelMixLookups();
    assert term("NG") == 0.025 && term("DFO") == 0.04;
    SumOfTwo(term, "NG", "DFO");
  }

  /** The corrected shares of the example split its two fuels evenly. */
  lemma ZeroFuelMixEvenShares()
    ensures MixShares(ZeroFuelMix())("NG") == 0.5 && MixShares(ZeroFuelMix())("DFO") == 0.5
  {
    ZeroFuelMixRows();
    ZeroFuelMixCodes();
  }

  /** The factors of the example's two fuels. */
  lemma ZeroFuelMixLookups()
    ensures EfLookup(ZeroFuelMixFactors(), "NG") == Some(0.05)
    ensures EfLookup(ZeroFuelMixFactors(), "DFO") == Some(0.08)
  {
  }

  lemma DivNonNegative(a: real, t: real)
    requires a >= 0.0 && t > 0.0
    ensures a / t >= 0.0
  {
  }

  /** With fuel for electricity never negative, no share is negative. */
  lemma ShareNonNegative(rows: seq<GenerationFuelRow>, c: string)
    requires forall g :: g in rows ==> FuelForElectricity(g) >= 0.0
    ensures MixShares(rows)(c) >= 0.0
  {
    SumOfNonNegative(Filter(rows, KeyIs(EnergySource, c)), FuelForElectricity);
    SumOfNonNegative(rows, FuelForElectricity);
    if MixTotal(rows) != 0.0 {
      DivNonNegative(FuelTotal(rows)(c), MixTotal(rows));
    } else if |FuelCodes(rows)| > 0 {
      DivNonNegative(1.0, |FuelCodes(rows)| as real);
    }
  }

  lemma ScaleMonotone(s: real, a: real, b: real)
    requires s >= 0.0 && a <= b
    ensures a * s <= s * b
  {
    assert s * b - a * s == s * (b - a);
  }

  /** Shares that add up to one average the factors: the weighted sum is at least lo... */
  lemma WeightedSumAtLeast(codes: seq<string>, share: string -> real, efs: map<string, real>, lo: real)
    requires SumOf(codes, share) == 1.0
    requires forall c :: c in codes ==> share(c) >= 0.0 && c in efs && lo <= efs[c]
    ensures lo <= SumOf(codes, ShareTimesEf(share, efs))
  {
    var term := ShareTimesEf(share, efs);
    forall c | c in codes ensures lo * share(c) <= term(c) {
      ScaleMonotone(share(c), lo, efs[c]);
    }
    SumOfAboveScaled(codes, share, term, lo);
  }

  /** ... and at most hi. */
  lemma WeightedSumAtMost(codes: seq<string>, share: string -> real, efs: map<string, real>, hi: real)
    requires SumOf(codes, share) == 1.0
    requires forall c :: c in codes ==> share(c) >= 0.0 && c in efs && efs[c] <= hi
    ensures SumOf(codes, ShareTimesEf(share, efs)) <= hi
  {
    var term := ShareTimesEf(share, efs);
    forall c | c in codes ensures term(c) <= hi * share(c) {
      ScaleMonotone(share(c), efs[c], hi);
    }
    SumOfBelowScaled(codes, share, term, hi);
  }

  /** With fuel for electricity never negative and every fuel's factor between lo and hi,
      the corrected weighted factor lies between lo and hi. */
  lemma WeightedEfBetween(gf: seq<GenerationFuelRow>, efs: map<string, real>, plant: int, month: int, lo: real, hi: real)
    requires FuelMix(gf, plant, month) != []
    requires forall g :: g in gf ==> FuelForElectricity(g) >= 0.0
    requires forall g :: g in gf ==> g.energySourceCode in efs && lo <= efs[g.energySourceCode] <= hi
    ensures WeightedEf(gf, efs, plant, month).Some?
    ensures lo <= WeightedEf(gf, efs, plant, month).value <= hi
  {
    var rows := FuelMix(gf, plant, month);
    var codes := FuelCodes(rows);
    FuelCodesMembership(rows);
    forall c | c in codes ensures MixShares(rows)(c) >= 0.0 && c in efs && lo <= efs[c] <= hi {
      assert BurnsFuel(rows, c);
      var g :| g in rows && g.energySourceCode == c;
      ShareNonNegative(rows, c);
    }
    SharesSumToOne(rows);
    WeightedSumAtLeast(codes, MixShares(rows), efs, lo);
    WeightedSumAtMost(codes, MixShares(rows), efs, hi);
  }

  /** The source's own factor keeps the same bounds wherever the plant-month burned fuel. */
  lemma WeightedEfAsWrittenBetween(gf: seq<GenerationFuelRow>, efs: map<string, real>, plant: int, month: int, lo: real, hi: real)
    requires FuelMix(gf, plant, month) != []
    requires MixTotal(FuelMix(gf, plant, month)) != 0.0
    requires forall g :: g in gf ==> FuelForElectricity(g) >= 0.0
    requires forall g :: g in gf ==> g.energySourceCode in efs && lo <= efs[g.energySourceCode] <= hi
    ensures WeightedEfAsWritten(gf, efs, plant, month).Fin?
    ensures lo <= WeightedEfAsWritten(gf, efs, plant, month).v <= hi
  {
    WeightedEfBetween(gf, efs, plant, month, lo, hi);
    AsWrittenAgreesWhereFuelBurned(gf, efs, plant, month);
  }

  // ---------------------------------------------------------------- fill_cems_missing_co2

  /** The tables fill_cems_missing_co2 reads: the unit fuel types of the crosswalk, the fuel
      emission factors (tons of CO2 per mmbtu), the plant-month geothermal factors, and
      EIA-923 generation and fuel data. */
  datatype Co2Inputs = Co2Inputs(
    fuelTypes: seq<UnitFuel>,
    efs: map<string, real>,
    geoEfs: map<(int, int), Option<real>>,
    gf: seq<GenerationFuelRow>)

  function FuelTypeOf(r: CemsRow, inputs: Co2Inputs): Option<string>
  {
    UnitFuelLookup(inputs.fuelTypes, r.plantIdEpa, r.unitId)
  }

  function AfterPreStep(r: CemsRow): CemsRow
  {
    r.(co2MassTons := PreStepCo2(r))
  }

  /** Round one: a missing row of a typed unit gets heat times its fuel's factor. */
  function AfterRound1(r: CemsRow, inputs: Co2Inputs): CemsRow
  {
    var code := FuelTypeOf(r, inputs);
    if r.co2MassTons.None? && code.Some?
    then r.(co2MassTons := Update(r.co2MassTons, Co2FromHeatContent(r, code.value, inputs.efs, inputs.geoEfs)))
    else r
  }

  /** Round two's estimate for a row: heat times its plant-month's weighted factor, as a float. */
  function Round2Co2(r: CemsRow, inputs: Co2Inputs): Num
  {
    MulOpt(r.heatContentMmbtu, WeightedEfAsWritten(inputs.gf, inputs.efs, r.plantIdEia, r.reportDate))
  }

  /** Round two: a missing row of an untyped unit gets its estimate where that is a number. */
  function AfterRound2(r: CemsRow, inputs: Co2Inputs): CemsRow
  {
    if r.co2MassTons.None? && FuelTypeOf(r, inputs).None?
    then r.(co2MassTons := Update(r.co2MassTons, Finite(Round2Co2(r, inputs))))
    else r
  }

  /** The final merge: every row carries its unit's fuel type, null when untyped. */
  function WithFuelType(r: CemsRow, inputs: Co2Inputs): CemsRow
  {
    r.(energySourceCode := FuelTypeOf(r, inputs))
  }

  /** A CEMS row as fill_cems_missing_co2 leaves it. */
  function FilledRow(r: CemsRow, inputs: Co2Inputs): CemsRow
  {
    WithFuelType(AfterRound2(AfterRound1(AfterPreStep(r), inputs), inputs), inputs)
  }

  /** The pre-step over the table: nulls to zero, then zeros with heat input to missing. */
  method MarkMissingCo2(cems: array<CemsRow>)
    modifies cems
    ensures forall i :: 0 <= i < cems.Length ==> cems[i] == AfterPreStep(old(cems[i]))
  {
    forall i | 0 <= i < cems.Length {
      cems[i] := AfterPreStep(cems[i]);
    }
  }

  /** The first round over the table (`cems.update` with the typed rows' estimates). */
  method FillFromFuelTypes(cems: array<CemsRow>, inputs: Co2Inputs)
    modifies cems
    ensures forall i :: 0 <= i < cems.Length ==> cems[i] == AfterRound1(old(cems[i]), inputs)
  {
    forall i | 0 <= i < cems.Length {
      cems[i] := AfterRound1(cems[i], inputs);
    }
  }

  /** The second round over the table (`cems.update` with the untyped rows' estimates). */
  method FillFromFuelMix(cems: array<CemsRow>, inputs: Co2Inputs)
    modifies cems
    ensures forall i :: 0 <= i < cems.Length ==> cems[i] == AfterRound2(old(cems[i]), inputs)
  {
    forall i | 0 <= i < cems.Length {
      cems[i] := AfterRound2(cems[i], inputs);
    }
  }

  /** The closing merge of the unit fuel types onto every row. */
  method MergeFuelTypes(cems: array<CemsRow>, inputs: Co2Inputs)
    modifies cems
    ensures forall i :: 0 <= i < cems.Length ==> cems[i] == WithFuelType(old(cems[i]), inputs)
  {
    forall i | 0 <= i < cems.Length {
      cems[i] := WithFuelType(cems[i], inputs);
    }
  }

  /** fill_cems_missing_co2 on the table in place: the pre-step, the two rounds and the
      fuel-type merge, each a pass over every row. */
  method FillCemsMissingCo2(cems: array<CemsRow>, inputs: Co2Inputs)
    modifies cems
    ensures forall i :: 0 <= i < cems.Length ==> cems[i] == FilledRow(old(cems[i]), inputs)
  {
    ghost var before := cems[..];
    MarkMissingCo2(cems);
    ghost var marked := cems[..];
    FillFromFuelTypes(cems, inputs);
    ghost var round1 := cems[..];
    FillFromFuelMix(cems, inputs);
    ghost var round2 := cems[..];
    MergeFuelTypes(cems, inputs);
    forall i | 0 <= i < cems.Length ensures cems[i] == FilledRow(before[i], inputs) {
      assert round2[i] == AfterRound2(round1[i], inputs);
      assert round1[i] == AfterRound1(marked[i], inputs);
      assert marked[i] == AfterPreStep(before[i]);
    }
  }

  /** Only the CO2 value and the fuel type of a row change. */
  lemma FillChangesOnlyCo2AndFuelType(r: CemsRow, inputs: Co2Inputs)
    ensures FilledRow(r, inputs) == r.(co2MassTons := FilledRow(r, inputs).co2MassTons,
                                       energySourceCode := FuelTypeOf(r, inputs))
  {
  }

  /** A reported value that the pre-step does not mark as missing is never overwritten. */
  lemma FillKeepsReportedCo2(r: CemsRow, inputs: Co2Inputs)
    requires r.co2MassTons.Some?
    requires !(r.co2MassTons.value == 0.0 && HasHeat(r))
    ensures FilledRow(r, inputs).co2MassTons == r.co2MassTons
  {
  }

  /** A null value without heat input ends as zero. */
  lemma NullWithoutHeatBecomesZero(r: CemsRow, inputs: Co2Inputs)
    requires r.co2MassTons.None? && !HasHeat(r)
    ensures FilledRow(r, inputs).co2MassTons == Some(0.0)
  {
  }

  /** A missing value of a typed unit is heat times its fuel's factor, or times the
      plant-month geothermal factor when the fuel has none. */
  lemma FilledByFuelType(r: CemsRow, inputs: Co2Inputs, code: string)
    requires PreStepCo2(r).None?
    requires FuelTypeOf(r, inputs) == Some(code)
    ensures code in inputs.efs ==>
      FilledRow(r, inputs).co2MassTons == Some(r.heatContentMmbtu.value * inputs.efs[code])
    ensures code !in inputs.efs ==>
      FilledRow(r, inputs).co2MassTons == Times(r.heatContentMmbtu, GeoEfLookup(inputs.geoEfs, r.plantIdEia, r.reportDate))
  {
    var marked := AfterPreStep(r);
    assert FuelTypeOf(marked, inputs) == Some(code);
    var round1 := AfterRound1(marked, inputs);
    assert round1.co2MassTons == Co2FromHeatContent(r, code, inputs.efs, inputs.geoEfs);
    assert FuelTypeOf(round1, inputs) == Some(code);
    assert AfterRound2(round1, inputs) == round1;
    assert FilledRow(r, inputs).co2MassTons == round1.co2MassTons;
    assert HasHeat(r);
    if code in inputs.efs {
      assert EfLookup(inputs.efs, code) == Some(inputs.efs[code]);
      assert Co2FromHeatContent(r, code, inputs.efs, inputs.geoEfs) == Times(r.heatContentMmbtu, Some(inputs.efs[code]));
      assert Times(r.heatContentMmbtu, Some(inputs.efs[code])).value == r.heatContentMmbtu.value * inputs.efs[code];
    }
  }

  /** A missing value of an untyped unit is heat times the weighted factor of its plant-month
      with the source's shares, and stays missing where that product is not a number. */
  lemma FilledByFuelMix(r: CemsRow, inputs: Co2Inputs)
    requires PreStepCo2(r).None?
    requires FuelTypeOf(r, inputs).None?
    ensures FilledRow(r, inputs).co2MassTons
         == Finite(MulOpt(r.heatContentMmbtu, WeightedEfAsWritten(inputs.gf, inputs.efs, r.plantIdEia, r.reportDate)))
  {
  }

  /** Where the plant-month burned fuel for electricity, that value is heat times the
      corrected weighted factor, which lies between the lowest and highest fuel factor. */
  lemma FilledByFuelMixWhereFuelBurned(r: CemsRow, inputs: Co2Inputs)
    requires PreStepCo2(r).None?
    requires FuelTypeOf(r, inputs).None?
    requires FuelMix(inputs.gf, r.plantIdEia, r.reportDate) != []
    requires MixTotal(FuelMix(inputs.gf, r.plantIdEia, r.reportDate)) != 0.0
    ensures FilledRow(r, inputs).co2MassTons
         == Times(r.heatContentMmbtu, WeightedEf(inputs.gf, inputs.efs, r.plantIdEia, r.reportDate))
  {
    FilledByFuelMix(r, inputs);
    AsWrittenAgreesWhereFuelBurned(inputs.gf, inputs.efs, r.plantIdEia, r.reportDate);
    FiniteProduct(r.heatContentMmbtu, WeightedEf(inputs.gf, inputs.efs, r.plantIdEia, r.reportDate).value);
  }

  /** A value stays missing exactly when it was marked missing and neither round found a
      number for it: the fills never write a null over a value. */
  lemma StillMissingExactly(r: CemsRow, inputs: Co2Inputs)
    ensures FilledRow(r, inputs).co2MassTons.None? <==>
      PreStepCo2(r).None? &&
      (match FuelTypeOf(r, inputs)
         case Some(code) => Co2FromHeatContent(r, code, inputs.efs, inputs.geoEfs).None?
         case None => !Round2Co2(r, inputs).Fin?)
  {
  }

  // ---------------------------------------------------------------- clean_cems: unresolved units

  /** The units with at least one value still missing after the fill. */
  function UnitsWithMissingCo2(rows: seq<CemsRow>): set<string>
  {
    set r | r in rows && r.co2MassTons.None? :: r.cemsId
  }

  function UnitNotIn(units: set<string>): CemsRow -> bool
  {
    (r: CemsRow) => r.cemsId !in units
  }

  /** The unit drop of clean_cems: every unit with a missing value goes, all its rows with it. */
  function DropUnitsWithMissingCo2(rows: seq<CemsRow>): (kept: seq<CemsRow>)
    ensures forall r :: r in kept ==> r.co2MassTons.Some?
    ensures forall r :: r in kept <==>
      r in rows && forall s :: s in rows && s.cemsId == r.cemsId ==> s.co2MassTons.Some?
  {
    Filter(rows, UnitNotIn(UnitsWithMissingCo2(rows)))
  }
}
