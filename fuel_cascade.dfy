/** monthly_fuel_types (src/data_cleaning.py): the primary fuel of every EPA unit in every month.
    Four ordered stages each write only into the units still labelled "unknown": a plant whose
    boilers all burn one fuel, a plant whose unit ids are exactly its boiler ids, a boiler or
    generator named by the EPA-EIA crosswalk, and the crosswalk's own fuel code. */
module FuelCascade {
  import opened Common
  import opened Text
  import opened Tables

  /** The label of a unit whose fuel no stage has found yet. */
  const Unknown: string := "unknown"

  /** The share of heat input a fuel needs to be a boiler's primary fuel (`fuel_thresh=0.9`). */
  const FuelThreshold: real := 0.9

  /** One row of EIA-923 boiler fuel data. `fuelConsumedMmbtu` is the column the fuel
      proportions add to the table they are given. */
  datatype BoilerFuelRow = BoilerFuelRow(
    plantIdEia: int,
    boilerId: string,
    energySourceCode: string,
    reportDate: int,
    fuelConsumedUnits: Option<real>,
    fuelMmbtuPerUnit: Option<real>,
    fuelConsumedMmbtu: Option<real>)

  /** One row of the boiler-level primary fuel table. */
  datatype PrimaryFuelRow = PrimaryFuelRow(plantIdEia: int, boilerId: string, reportDate: int, primaryFuel: string)

  /** One EPA unit in one month (plant_id_eia, unitid, report_date) with its primary fuel. */
  datatype EpaUnit = EpaUnit(plantIdEia: int, unitId: string, reportDate: int, primaryFuel: string)

  /** The key of an EPA unit in one month. */
  type UnitMonth = (int, string, int)

  /** The key of a boiler in one month. */
  type BoilerMonth = (int, string, int)

  // ---------------------------------------------------------------------------------------
  // Fuel proportions and primary fuel of each boiler (fuel_proportions_bf_eia923,
  // primary_fuel_bf_eia923 at level 'boiler')
  // ---------------------------------------------------------------------------------------

  /** The row with the heat of the fuel it consumed: units times mmbtu per unit. */
  function WithFuelMmbtu(r: BoilerFuelRow): (s: BoilerFuelRow)
    ensures s.fuelConsumedMmbtu.Some? <==> r.fuelConsumedUnits.Some? && r.fuelMmbtuPerUnit.Some?
    ensures s.fuelConsumedMmbtu.Some? ==> s.fuelConsumedMmbtu.value == r.fuelConsumedUnits.value * r.fuelMmbtuPerUnit.value
    ensures s.(fuelConsumedMmbtu := r.fuelConsumedMmbtu) == r
  {
    r.(fuelConsumedMmbtu := Times(r.fuelConsumedUnits, r.fuelMmbtuPerUnit))
  }

  /** The proportions add the heat column to the caller's own table. */
  method AddFuelConsumedMmbtu(bf: array<BoilerFuelRow>)
    modifies bf
    ensures forall i :: 0 <= i < bf.Length ==> bf[i] == WithFuelMmbtu(old(bf[i]))
  {
    forall i | 0 <= i < bf.Length {
      bf[i] := WithFuelMmbtu(bf[i]);
    }
  }

  function BoilerMonthOf(r: BoilerFuelRow): BoilerMonth
  {
    (r.plantIdEia, r.boilerId, r.reportDate)
  }

  function EnergySourceOf(r: BoilerFuelRow): string
  {
    r.energySourceCode
  }

  /** The heat of a row as the group sums count it: a null counts as zero. */
  function FuelMmbtu(r: BoilerFuelRow): real
  {
    ValueOr0(r.fuelConsumedMmbtu)
  }

  /** The rows of one boiler in one month. */
  function BoilerMonthRows(bf: seq<BoilerFuelRow>, k: BoilerMonth): seq<BoilerFuelRow>
  {
    Filter(bf, KeyIs(BoilerMonthOf, k))
  }

  /** The pivot's cell for fuel c: the heat of c the boiler consumed in the month. */
  function FuelHeat(bf: seq<BoilerFuelRow>, k: BoilerMonth): string -> real
  {
    GroupTotal(BoilerMonthRows(bf, k), EnergySourceOf, FuelMmbtu)
  }

  /** The pivot's `total` column: all the heat the boiler consumed in the month. */
  function BoilerMonthHeat(bf: seq<BoilerFuelRow>, k: BoilerMonth): real
  {
    SumOf(BoilerMonthRows(bf, k), FuelMmbtu)
  }

  /** The fuel codes of the table, in order of first appearance: the pivot's columns. */
  function FuelCodesOf(bf: seq<BoilerFuelRow>): (codes: seq<string>)
    ensures NoDups(codes)
    ensures forall c :: c in codes <==> exists r :: r in bf && r.energySourceCode == c
  {
    var all := seq(|bf|, i requires 0 <= i < |bf| => bf[i].energySourceCode);
    assert forall c :: c in all <==> exists r :: r in bf && r.energySourceCode == c by {
      forall c | c in all ensures exists r :: r in bf && r.energySourceCode == c {
        var i :| 0 <= i < |all| && all[i] == c;
        assert bf[i] in bf;
      }
      forall c | exists r :: r in bf && r.energySourceCode == c ensures c in all {
        var r :| r in bf && r.energySourceCode == c;
        var i :| 0 <= i < |bf| && bf[i] == r;
        assert all[i] == c;
      }
    }
    Distinct(all)
  }

  /** The proportion of each fuel in the heat one boiler consumed in one month. */
  function Proportions(bf: seq<BoilerFuelRow>, k: BoilerMonth): string -> real
  {
    Fraction(FuelHeat(bf, k), BoilerMonthHeat(bf, k))
  }

  /** Every column before position `i` holds a smaller value than column `i`. */
  predicate EarlierBelow(cols: seq<string>, p: string -> real, i: int)
    requires 0 <= i < |cols|
  {
    forall j :: 0 <= j < i ==> p(cols[j]) < p(cols[i])
  }

  /** `idxmax(axis=1)` after `where(value >= thresh)`: the first column holding the largest value
      that reaches the threshold, or null when none does. */
  function IdxMaxAtLeast(cols: seq<string>, p: string -> real, thresh: real): (r: Option<string>)
    ensures r.None? <==> forall c :: c in cols ==> p(c) < thresh
    ensures r.Some? ==> r.value in cols && p(r.value) >= thresh
    ensures r.Some? ==> forall c :: c in cols && p(c) >= thresh ==> p(c) <= p(r.value)
    ensures r.Some? ==> exists i :: 0 <= i < |cols| && cols[i] == r.value && EarlierBelow(cols, p, i)
  {
    if cols == [] then None
    else
      var rest := IdxMaxAtLeast(cols[1..], p, thresh);
      assert forall c :: c in cols <==> c == cols[0] || c in cols[1..] by {
        assert cols == [cols[0]] + cols[1..];
      }
      if p(cols[0]) >= thresh && (rest.None? || p(rest.value) <= p(cols[0])) then
        assert EarlierBelow(cols, p, 0);
        Some(cols[0])
      else
        assert rest.Some? ==> exists i :: 0 <= i < |cols| && cols[i] == rest.value && EarlierBelow(cols, p, i) by {
          if rest.Some? {
            var i :| 0 <= i < |cols[1..]| && cols[1..][i] == rest.value && EarlierBelow(cols[1..], p, i);
            EarlierBelowShift(cols, p, i);
          }
        }
        rest
  }

  lemma EarlierBelowShift(cols: seq<string>, p: string -> real, i: int)
    requires 0 <= i < |cols| - 1
    requires EarlierBelow(cols[1..], p, i) && p(cols[0]) < p(cols[i + 1])
    ensures EarlierBelow(cols, p, i + 1)
  {
    forall j | 0 < j < i + 1 ensures p(cols[j]) < p(cols[i + 1]) {
      assert cols[j] == cols[1..][j - 1];
    }
  }

  /** The primary fuel of a boiler in a month: the fuel whose proportion reaches the threshold,
      the largest one if several do, or "unknown". The pivot's columns are sorted. */
  function PrimaryFuelOf(bf: seq<BoilerFuelRow>, k: BoilerMonth, thresh: real): (f: string)
    ensures (forall c :: c in FuelCodesOf(bf) ==> Proportions(bf, k)(c) < thresh) ==> f == Unknown
    ensures (exists c :: c in FuelCodesOf(bf) && Proportions(bf, k)(c) >= thresh) ==>
      f in FuelCodesOf(bf) && Proportions(bf, k)(f) >= thresh
      && forall c :: c in FuelCodesOf(bf) && Proportions(bf, k)(c) >= thresh ==> Proportions(bf, k)(c) <= Proportions(bf, k)(f)
  {
    var cols := Sort(FuelCodesOf(bf));
    assert forall c :: c in cols <==> c in FuelCodesOf(bf) by {
      forall c ensures c in cols <==> c in FuelCodesOf(bf) {
        assert c in cols <==> c in multiset(cols);
        assert c in FuelCodesOf(bf) <==> c in multiset(FuelCodesOf(bf));
      }
    }
    var pick := IdxMaxAtLeast(cols, Proportions(bf, k), thresh);
    if pick.Some? then pick.value else Unknown
  }

  function BurnedFuel(bf: seq<BoilerFuelRow>): BoilerMonth -> bool
  {
    (k: BoilerMonth) => BoilerMonthHeat(bf, k) != 0.0
  }

  /** The boiler-months of the table that consumed some heat (the pivot drops months whose
      total is zero), each once. */
  function BurningBoilerMonths(bf: seq<BoilerFuelRow>): (keys: seq<BoilerMonth>)
    ensures NoDups(keys)
    ensures forall k :: k in keys <==> (exists r :: r in bf && BoilerMonthOf(r) == k) && BoilerMonthHeat(bf, k) != 0.0
  {
    var all := seq(|bf|, i requires 0 <= i < |bf| => BoilerMonthOf(bf[i]));
    assert forall k :: k in all <==> exists r :: r in bf && BoilerMonthOf(r) == k by {
      forall k | k in all ensures exists r :: r in bf && BoilerMonthOf(r) == k {
        var i :| 0 <= i < |all| && all[i] == k;
        assert bf[i] in bf;
      }
      forall k | exists r :: r in bf && BoilerMonthOf(r) == k ensures k in all {
        var r :| r in bf && BoilerMonthOf(r) == k;
        var i :| 0 <= i < |bf| && bf[i] == r;
        assert all[i] == k;
      }
    }
    var keys := Filter(Distinct(all), BurnedFuel(bf));
    FilterKeepsNoDups(Distinct(all), BurnedFuel(bf));
    keys
  }

  /** Filtering a repetition-free sequence leaves it repetition-free. */
  lemma {:induction false} FilterKeepsNoDups<T(!new)>(s: seq<T>, p: T -> bool)
    requires NoDups(s)
    ensures NoDups(Filter(s, p))
  {
    if s != [] {
      var t := s[1..];
      assert NoDups(t) by {
        forall i, j | 0 <= i < j < |t| ensures t[i] != t[j] {
          assert t[i] == s[i + 1] && t[j] == s[j + 1];
        }
      }
      FilterKeepsNoDups(t, p);
      assert s[0] !in Filter(t, p) by {
        forall i | 0 <= i < |t| ensures t[i] != s[0] {
          assert t[i] == s[i + 1];
        }
      }
    }
  }

  /** primary_fuel_bf_eia923 at level 'boiler': one row per boiler and month that consumed heat,
      with its primary fuel. */
  function PrimaryFuelBf(bf: seq<BoilerFuelRow>, thresh: real): (pf: seq<PrimaryFuelRow>)
    ensures forall row :: row in pf <==> IsPrimaryFuelRow(bf, row, thresh)
    ensures UniqueBoilerMonths(pf)
  {
    var keys := BurningBoilerMonths(bf);
    var pf := seq(|keys|, i requires 0 <= i < |keys| => PrimaryFuelRowOf(bf, keys[i], thresh));
    ListedByKey(keys, pf, BoilerMonthOfRow, PrimaryFuelRowMaker(bf, thresh));
    pf
  }

  /** A row of the primary fuel table: a boiler-month of the boiler fuel table that consumed
      heat, with its primary fuel. */
  predicate IsPrimaryFuelRow(bf: seq<BoilerFuelRow>, row: PrimaryFuelRow, thresh: real)
  {
    BoilerMonthOfRow(row) in BurningBoilerMonths(bf) && row == PrimaryFuelRowOf(bf, BoilerMonthOfRow(row), thresh)
  }

  function PrimaryFuelRowMaker(bf: seq<BoilerFuelRow>, thresh: real): BoilerMonth -> PrimaryFuelRow
  {
    (k: BoilerMonth) => PrimaryFuelRowOf(bf, k, thresh)
  }

  function PrimaryFuelRowOf(bf: seq<BoilerFuelRow>, k: BoilerMonth, thresh: real): PrimaryFuelRow
  {
    PrimaryFuelRow(k.0, k.1, k.2, PrimaryFuelOf(bf, k, thresh))
  }

  function BoilerMonthOfRow(r: PrimaryFuelRow): BoilerMonth
  {
    (r.plantIdEia, r.boilerId, r.reportDate)
  }

  /** No two rows of the primary fuel table are of the same boiler and month. */
  predicate UniqueBoilerMonths(pf: seq<PrimaryFuelRow>)
  {
    forall i, j :: 0 <= i < j < |pf| ==> BoilerMonthOfRow(pf[i]) != BoilerMonthOfRow(pf[j])
  }

  /** The proportions of a boiler-month that consumed heat add up to one over the pivot's columns. */
  lemma ProportionsSumToOne(bf: seq<BoilerFuelRow>, k: BoilerMonth)
    requires BoilerMonthHeat(bf, k) != 0.0
    ensures SumOf(FuelCodesOf(bf), Proportions(bf, k)) == 1.0
  {
    FuelHeatsPartition(bf, k);
    FractionsSumToOne(FuelCodesOf(bf), FuelHeat(bf, k), BoilerMonthHeat(bf, k));
  }

  /** The pivot's row total is the boiler-month's heat: every row burns one of the columns. */
  lemma FuelHeatsPartition(bf: seq<BoilerFuelRow>, k: BoilerMonth)
    ensures SumOf(FuelCodesOf(bf), FuelHeat(bf, k)) == BoilerMonthHeat(bf, k)
  {
    var rows := BoilerMonthRows(bf, k);
    forall r | r in rows ensures EnergySourceOf(r) in FuelCodesOf(bf) {
      CodeIsColumn(bf, r);
    }
    GroupTotalsPartition(rows, EnergySourceOf, FuelCodesOf(bf), FuelMmbtu);
  }

  /** The fuel of every row is one of the pivot's columns. */
  lemma CodeIsColumn(bf: seq<BoilerFuelRow>, r: BoilerFuelRow)
    requires r in bf
    ensures EnergySourceOf(r) in FuelCodesOf(bf)
  {
    assert exists x :: x in bf && x.energySourceCode == r.energySourceCode;
  }

  /** A fuel the boiler never burned has no heat in its pivot cell. */
  lemma AbsentFuelHasNoHeat(bf: seq<BoilerFuelRow>, k: BoilerMonth, c: string)
    requires c !in FuelCodesOf(bf)
    ensures FuelHeat(bf, k)(c) == 0.0
  {
    var rows := BoilerMonthRows(bf, k);
    forall r | r in rows ensures !KeyIs(EnergySourceOf, c)(r) {
      CodeIsColumn(bf, r);
    }
    FilterNone(rows, KeyIs(EnergySourceOf, c));
  }

  /** With no negative fuel figures, a fuel that supplies at least the threshold (above one half)
      of a boiler-month's heat is its primary fuel, and the primary fuel is the only such fuel. */
  lemma DominantFuelIsPrimary(bf: seq<BoilerFuelRow>, k: BoilerMonth, thresh: real, c: string)
    requires forall r :: r in bf ==> FuelMmbtu(r) >= 0.0
    requires thresh > 0.5
    requires Proportions(bf, k)(c) >= thresh
    ensures PrimaryFuelOf(bf, k, thresh) == c
  {
    ReachingFuelIsColumn(bf, k, thresh, c);
    var d := PrimaryFuelOf(bf, k, thresh);
    assert d in FuelCodesOf(bf) && Proportions(bf, k)(d) >= thresh;
    if d != c {
      NoTwoDominantFuels(bf, k, thresh, c, d);
    }
  }

  /** A fuel whose proportion reaches a positive threshold is one of the pivot's columns. */
  lemma ReachingFuelIsColumn(bf: seq<BoilerFuelRow>, k: BoilerMonth, thresh: real, c: string)
    requires thresh > 0.0 && Proportions(bf, k)(c) >= thresh
    ensures c in FuelCodesOf(bf)
  {
    if c !in FuelCodesOf(bf) {
      AbsentFuelHasNoHeat(bf, k, c);
      assert false;
    }
  }

  /** With no negative fuel figures, two different fuels cannot both reach a threshold above one half. */
  lemma NoTwoDominantFuels(bf: seq<BoilerFuelRow>, k: BoilerMonth, thresh: real, c: string, d: string)
    requires forall r :: r in bf ==> FuelMmbtu(r) >= 0.0
    requires thresh > 0.5
    requires c in FuelCodesOf(bf) && d in FuelCodesOf(bf) && c != d
    ensures Proportions(bf, k)(c) < thresh || Proportions(bf, k)(d) < thresh
  {
    var total := BoilerMonthHeat(bf, k);
    if total != 0.0 {
      SumOfNonNegative(BoilerMonthRows(bf, k), FuelMmbtu);
      FuelHeatNonNegative(bf, k);
      FuelHeatsPartition(bf, k);
      TwoFractionsAtMostOne(FuelCodesOf(bf), FuelHeat(bf, k), total, c, d);
    }
  }

  lemma FuelHeatNonNegative(bf: seq<BoilerFuelRow>, k: BoilerMonth)
    requires forall r :: r in bf ==> FuelMmbtu(r) >= 0.0
    ensures forall c :: FuelHeat(bf, k)(c) >= 0.0
  {
    forall c ensures FuelHeat(bf, k)(c) >= 0.0 {
      var rows := Filter(BoilerMonthRows(bf, k), KeyIs(EnergySourceOf, c));
      SumOfNonNegative(rows, FuelMmbtu);
    }
  }

  /** Two fractions of a total made of non-negative parts add up to at most one. */
  lemma TwoFractionsAtMostOne(codes: seq<string>, heat: string -> real, total: real, c: string, d: string)
    requires NoDups(codes) && c in codes && d in codes && c != d
    requires forall x :: heat(x) >= 0.0
    requires SumOf(codes, heat) == total && total != 0.0
    ensures Fraction(heat, total)(c) + Fraction(heat, total)(d) <= 1.0
  {
    SumOfTwoAtLeast(codes, heat, c, d);
    SumOfNonNegative(codes, heat);
    var a, b := heat(c), heat(d);
    AddFractions(a, b, total);
    AtMostOneWhole(a + b, total);
  }

  lemma AddFractions(a: real, b: real, t: real)
    requires t != 0.0
    ensures a / t + b / t == (a + b) / t
  {
    assert (a / t) * t == a && (b / t) * t == b && ((a + b) / t) * t == a + b;
    assert (a / t + b / t) * t == a + b;
  }

  lemma AtMostOneWhole(part: real, total: real)
    requires 0.0 < total && part <= total
    ensures part / total <= 1.0
  {
    var q := part / total;
    assert q * total == part;
    assert (q - 1.0) * total <= 0.0;
  }

  /** Over repetition-free keys, a sum of non-negative terms is at least any two of its terms. */
  lemma {:induction false} SumOfTwoAtLeast(keys: seq<string>, g: string -> real, x: string, y: string)
    requires NoDups(keys) && x in keys && y in keys && x != y
    requires forall k :: g(k) >= 0.0
    ensures SumOf(keys, g) >= g(x) + g(y)
  {
    var t := keys[1..];
    assert NoDups(t) by {
      forall i, j | 0 <= i < j < |t| ensures t[i] != t[j] {
        assert t[i] == keys[i + 1] && t[j] == keys[j + 1];
      }
    }
    assert keys == [keys[0]] + t;
    if keys[0] == x {
      SumOfAtLeastOne(t, g, y);
    } else if keys[0] == y {
      SumOfAtLeastOne(t, g, x);
    } else {
      SumOfTwoAtLeast(t, g, x, y);
    }
  }

  lemma {:induction false} SumOfAtLeastOne(keys: seq<string>, g: string -> real, x: string)
    requires x in keys
    requires forall k :: g(k) >= 0.0
    ensures SumOf(keys, g) >= g(x)
  {
    if keys[0] == x {
      SumOfNonNegative(keys[1..], g);
    } else {
      assert keys == [keys[0]] + keys[1..];
      SumOfAtLeastOne(keys[1..], g, x);
    }
  }

  // ---------------------------------------------------------------------------------------
  // Stage 1: plants whose boilers share one fuel (identify_single_fuel_plants)
  // ---------------------------------------------------------------------------------------

  predicate InPlantMonth(r: PrimaryFuelRow, plant: int, month: int)
  {
    r.plantIdEia == plant && r.reportDate == month
  }

  function PlantMonthIs(plant: int, month: int): PrimaryFuelRow -> bool
  {
    (r: PrimaryFuelRow) => InPlantMonth(r, plant, month)
  }

  /** The distinct primary fuels of a plant's boilers in one month. */
  function PlantMonthFuels(pf: seq<PrimaryFuelRow>, plant: int, month: int): (fuels: seq<string>)
    ensures NoDups(fuels)
    ensures forall f :: f in fuels <==> exists r :: r in pf && InPlantMonth(r, plant, month) && r.primaryFuel == f
  {
    var rows := Filter(pf, PlantMonthIs(plant, month));
    var all := seq(|rows|, i requires 0 <= i < |rows| => rows[i].primaryFuel);
    assert forall f :: f in all <==> exists r :: r in pf && InPlantMonth(r, plant, month) && r.primaryFuel == f by {
      forall f | f in all ensures exists r :: r in pf && InPlantMonth(r, plant, month) && r.primaryFuel == f {
        var i :| 0 <= i < |all| && all[i] == f;
        assert rows[i] in rows;
      }
      forall f | exists r :: r in pf && InPlantMonth(r, plant, month) && r.primaryFuel == f ensures f in all {
        var r :| r in pf && InPlantMonth(r, plant, month) && r.primaryFuel == f;
        assert r in rows;
        var i :| 0 <= i < |rows| && rows[i] == r;
        assert all[i] == f;
      }
    }
    Distinct(all)
  }

  /** The fuel of a plant-month whose boilers all have the same primary fuel (possibly
      "unknown"), or null when the plant-month has no boiler row or its boilers differ. */
  function SingleFuel(pf: seq<PrimaryFuelRow>, plant: int, month: int): (f: Option<string>)
    ensures f.Some? <==> OneFuelPlantMonth(pf, plant, month)
    ensures f.Some? ==> forall r :: r in pf && InPlantMonth(r, plant, month) ==> r.primaryFuel == f.value
  {
    var fuels := PlantMonthFuels(pf, plant, month);
    assert forall r :: r in pf && InPlantMonth(r, plant, month) ==> r.primaryFuel in fuels by {
      forall r | r in pf && InPlantMonth(r, plant, month) ensures r.primaryFuel in fuels {
        assert exists x :: x in pf && InPlantMonth(x, plant, month) && x.primaryFuel == r.primaryFuel;
      }
    }
    if |fuels| == 1 then
      assert fuels[0] in fuels;
      Some(fuels[0])
    else
      assert !OneFuelPlantMonth(pf, plant, month) by {
        if |fuels| != 0 {
          assert fuels[0] in fuels && fuels[1] in fuels && fuels[0] != fuels[1];
        }
      }
      None
  }

  /** The plant has boiler rows in the month and they all carry the same primary fuel. */
  predicate OneFuelPlantMonth(pf: seq<PrimaryFuelRow>, plant: int, month: int)
  {
    (exists r :: r in pf && InPlantMonth(r, plant, month))
    && forall r1, r2 :: r1 in pf && r2 in pf && InPlantMonth(r1, plant, month) && InPlantMonth(r2, plant, month) ==>
         r1.primaryFuel == r2.primaryFuel
  }

  /** The unit after the left merge with the single-fuel plants and `fillna('unknown')`. */
  function AfterStage1(k: UnitMonth, pf: seq<PrimaryFuelRow>): EpaUnit
  {
    EpaUnit(k.0, k.1, k.2, Step(Unknown, SingleFuel(pf, k.0, k.2)))
  }

  // ---------------------------------------------------------------------------------------
  // Stage 2: plants whose unit ids are exactly their boiler ids
  // (unit_to_boiler_match, assign_boiler_fuel_type)
  // ---------------------------------------------------------------------------------------

  /** The plant's entry of unit_list: its distinct unit ids. */
  function PlantUnitIds(units: seq<UnitMonth>, plant: int): (ids: seq<string>)
    ensures NoDups(ids)
    ensures forall id :: id in ids <==> exists u :: u in units && u.0 == plant && u.1 == id
  {
    var all := UnitIdsOfPlant(units, plant);
    Distinct(all)
  }

  function UnitIdsOfPlant(units: seq<UnitMonth>, plant: int): (all: seq<string>)
    ensures forall id :: id in all <==> exists u :: u in units && u.0 == plant && u.1 == id
  {
    if units == [] then []
    else
      var rest := UnitIdsOfPlant(units[1..], plant);
      assert forall u :: u in units <==> u == units[0] || u in units[1..] by {
        assert units == [units[0]] + units[1..];
      }
      if units[0].0 == plant then [units[0].1] + rest else rest
  }

  /** The plant's entry of boiler_list: its distinct boiler ids. */
  function PlantBoilerIds(pf: seq<PrimaryFuelRow>, plant: int): (ids: seq<string>)
    ensures NoDups(ids)
    ensures forall id :: id in ids <==> exists r :: r in pf && r.plantIdEia == plant && r.boilerId == id
  {
    Distinct(BoilerIdsOfPlant(pf, plant))
  }

  function BoilerIdsOfPlant(pf: seq<PrimaryFuelRow>, plant: int): (all: seq<string>)
    ensures forall id :: id in all <==> exists r :: r in pf && r.plantIdEia == plant && r.boilerId == id
  {
    if pf == [] then []
    else
      var rest := BoilerIdsOfPlant(pf[1..], plant);
      assert forall r :: r in pf <==> r == pf[0] || r in pf[1..] by {
        assert pf == [pf[0]] + pf[1..];
      }
      if pf[0].plantIdEia == plant then [pf[0].boilerId] + rest else rest
  }

  /** unit_to_boiler_match: the sorted unit ids equal the sorted boiler ids; a plant missing from
      the boiler list (IndexError) does not match. */
  function UnitToBoilerMatch(units: seq<UnitMonth>, pf: seq<PrimaryFuelRow>, plant: int): bool
  {
    var boilers := PlantBoilerIds(pf, plant);
    if boilers == [] then false else Sort(PlantUnitIds(units, plant)) == Sort(boilers)
  }

  /** Stage 2 fires for a plant exactly when it has boiler rows and its set of unit ids is its
      set of boiler ids. */
  lemma BoilerMatchIff(units: seq<UnitMonth>, pf: seq<PrimaryFuelRow>, plant: int)
    ensures UnitToBoilerMatch(units, pf, plant) <==>
      (exists r :: r in pf && r.plantIdEia == plant)
      && (set u | u in units && u.0 == plant :: u.1) == (set r | r in pf && r.plantIdEia == plant :: r.boilerId)
  {
    var unitIds := PlantUnitIds(units, plant);
    var boilers := PlantBoilerIds(pf, plant);
    SortEqualIffPermutation(unitIds, boilers);
    NoDupsPermutation(unitIds, boilers);
    IdSetsAgree(units, pf, plant);
    BoilerIdsEmptyIff(pf, plant);
  }

  lemma IdSetsAgree(units: seq<UnitMonth>, pf: seq<PrimaryFuelRow>, plant: int)
    ensures (forall id :: id in PlantUnitIds(units, plant) <==> id in PlantBoilerIds(pf, plant)) <==>
      (set u | u in units && u.0 == plant :: u.1) == (set r | r in pf && r.plantIdEia == plant :: r.boilerId)
  {
    var unitSet := set u | u in units && u.0 == plant :: u.1;
    var boilerSet := set r | r in pf && r.plantIdEia == plant :: r.boilerId;
    assert forall id :: id in PlantUnitIds(units, plant) <==> id in unitSet;
    assert forall id :: id in PlantBoilerIds(pf, plant) <==> id in boilerSet;
  }

  lemma BoilerIdsEmptyIff(pf: seq<PrimaryFuelRow>, plant: int)
    ensures PlantBoilerIds(pf, plant) == [] <==> !exists r :: r in pf && r.plantIdEia == plant
  {
    var boilers := PlantBoilerIds(pf, plant);
    if exists r :: r in pf && r.plantIdEia == plant {
      var r :| r in pf && r.plantIdEia == plant;
      assert r.boilerId in boilers;
    }
    if boilers != [] {
      assert boilers[0] in boilers;
    }
  }

  function BoilerMonthIs(plant: int, boiler: string, month: int): PrimaryFuelRow -> bool
  {
    (r: PrimaryFuelRow) => r.plantIdEia == plant && r.boilerId == boiler && r.reportDate == month
  }

  /** The primary fuel of a boiler in a month, null where the query finds no row (IndexError). */
  function BoilerFuel(pf: seq<PrimaryFuelRow>, plant: int, boiler: string, month: int): (f: Option<string>)
    ensures f.Some? ==> exists r :: r in pf && BoilerMonthOfRow(r) == (plant, boiler, month) && r.primaryFuel == f.value
    ensures f.None? <==> forall r :: r in pf ==> BoilerMonthOfRow(r) != (plant, boiler, month)
    ensures UniqueBoilerMonths(pf) ==> forall r :: r in pf && BoilerMonthOfRow(r) == (plant, boiler, month) ==> f == Some(r.primaryFuel)
  {
    var row := First(pf, BoilerMonthIs(plant, boiler, month));
    if row.Some? then
      assert BoilerMonthOfRow(row.value) == (plant, boiler, month);
      assert UniqueBoilerMonths(pf) ==> forall r :: r in pf && BoilerMonthOfRow(r) == (plant, boiler, month) ==> r == row.value by {
        if UniqueBoilerMonths(pf) {
          forall r | r in pf && BoilerMonthOfRow(r) == (plant, boiler, month) ensures r == row.value {
            var i :| 0 <= i < |pf| && pf[i] == r;
            var j :| 0 <= j < |pf| && pf[j] == row.value;
            if i < j {
              assert BoilerMonthOfRow(pf[i]) != BoilerMonthOfRow(pf[j]);
            } else if j < i {
              assert BoilerMonthOfRow(pf[j]) != BoilerMonthOfRow(pf[i]);
            }
          }
        }
      }
      Some(row.value.primaryFuel)
    else None
  }

  /** assign_boiler_fuel_type: where the plant's units match its boilers one to one, the primary
      fuel of the boiler that has the unit's id; otherwise "unknown". */
  function AssignBoilerFuelType(u: EpaUnit, units: seq<UnitMonth>, pf: seq<PrimaryFuelRow>): (f: string)
    ensures !UnitToBoilerMatch(units, pf, u.plantIdEia) ==> f == Unknown
    ensures f == Unknown || exists r :: r in pf && BoilerMonthOfRow(r) == (u.plantIdEia, u.unitId, u.reportDate) && r.primaryFuel == f
    ensures UnitToBoilerMatch(units, pf, u.plantIdEia) && UniqueBoilerMonths(pf) ==>
      forall r :: r in pf && BoilerMonthOfRow(r) == (u.plantIdEia, u.unitId, u.reportDate) ==> f == r.primaryFuel
  {
    if UnitToBoilerMatch(units, pf, u.plantIdEia) then
      var fuel := BoilerFuel(pf, u.plantIdEia, u.unitId, u.reportDate);
      if fuel.Some? then fuel.value else Unknown
    else Unknown
  }

  // ---------------------------------------------------------------------------------------
  // Stage 3: the boiler or generator the EPA-EIA crosswalk names (crosswalk_match)
  // ---------------------------------------------------------------------------------------

  /** The crosswalk query of crosswalk_match: the CAMD plant id is compared with the unit's
      EIA plant id. */
  function CrosswalkUnitIs(plant: int, unitId: string): CrosswalkRow -> bool
  {
    (c: CrosswalkRow) => c.camdPlantId == plant && c.camdUnitId == unitId
  }

  /** The boiler path: null where an IndexError is raised (no crosswalk row for the unit, or no
      primary fuel row for the boiler it names); "unknown" where the crosswalk names no boiler. */
  function BoilerPath(u: EpaUnit, crosswalk: seq<CrosswalkRow>, pf: seq<PrimaryFuelRow>): Option<string>
  {
    var cw := First(crosswalk, CrosswalkUnitIs(u.plantIdEia, u.unitId));
    if cw.None? then None
    else if cw.value.eiaBoilerId.None? then Some(Unknown)
    else BoilerFuel(pf, u.plantIdEia, cw.value.eiaBoilerId.value, u.reportDate)
  }

  /** The generator path: the primary fuel of the boiler whose id is the generator id the
      crosswalk names, or "unknown". */
  function GeneratorPath(u: EpaUnit, crosswalk: seq<CrosswalkRow>, pf: seq<PrimaryFuelRow>): string
  {
    var cw := First(crosswalk, CrosswalkUnitIs(u.plantIdEia, u.unitId));
    if cw.None? || cw.value.eiaGeneratorId.None? then Unknown
    else
      var fuel := BoilerFuel(pf, u.plantIdEia, cw.value.eiaGeneratorId.value, u.reportDate);
      if fuel.Some? then fuel.value else Unknown
  }

  /** crosswalk_match: the boiler path, and the generator path only after the boiler path raised.
      A fuel it finds is the primary fuel, in that month, of a boiler or generator the crosswalk
      names for the unit. */
  function CrosswalkMatch(u: EpaUnit, crosswalk: seq<CrosswalkRow>, pf: seq<PrimaryFuelRow>): (f: string)
    ensures f == Unknown || exists c, r :: c in crosswalk && r in pf && NamedInCrosswalk(u, c, r) && r.primaryFuel == f
  {
    var b := BoilerPath(u, crosswalk, pf);
    if b.Some? then b.value else GeneratorPath(u, crosswalk, pf)
  }

  /** The crosswalk row c is one of the unit's and names, as its boiler or its generator, the
      boiler of the primary fuel row r, which is of the unit's plant and month. */
  predicate NamedInCrosswalk(u: EpaUnit, c: CrosswalkRow, r: PrimaryFuelRow)
  {
    CrosswalkUnitIs(u.plantIdEia, u.unitId)(c)
    && r.plantIdEia == u.plantIdEia && r.reportDate == u.reportDate
    && (c.eiaBoilerId == Some(r.boilerId) || c.eiaGeneratorId == Some(r.boilerId))
  }

  /** A unit the crosswalk does not list gets "unknown". */
  lemma CrosswalkMatchWithoutRow(u: EpaUnit, crosswalk: seq<CrosswalkRow>, pf: seq<PrimaryFuelRow>)
    requires forall c :: c in crosswalk ==> !CrosswalkUnitIs(u.plantIdEia, u.unitId)(c)
    ensures CrosswalkMatch(u, crosswalk, pf) == Unknown
  {
  }

  /** When the unit's first crosswalk row names no boiler the result is "unknown" at once,
      whatever generator the row names. */
  lemma CrosswalkMatchNullBoiler(u: EpaUnit, crosswalk: seq<CrosswalkRow>, pf: seq<PrimaryFuelRow>, i: nat)
    requires i < |crosswalk| && CrosswalkUnitIs(u.plantIdEia, u.unitId)(crosswalk[i])
    requires forall j :: 0 <= j < i ==> !CrosswalkUnitIs(u.plantIdEia, u.unitId)(crosswalk[j])
    requires crosswalk[i].eiaBoilerId.None?
    ensures CrosswalkMatch(u, crosswalk, pf) == Unknown
  {
    FirstIsEarliest(crosswalk, CrosswalkUnitIs(u.plantIdEia, u.unitId), i);
  }

  /** When the named boiler has a primary fuel row for the month, that is the result; when it has
      none, the result is the generator path's. */
  lemma CrosswalkMatchBoilerFirst(u: EpaUnit, crosswalk: seq<CrosswalkRow>, pf: seq<PrimaryFuelRow>, i: nat)
    requires i < |crosswalk| && CrosswalkUnitIs(u.plantIdEia, u.unitId)(crosswalk[i])
    requires forall j :: 0 <= j < i ==> !CrosswalkUnitIs(u.plantIdEia, u.unitId)(crosswalk[j])
    requires crosswalk[i].eiaBoilerId.Some?
    ensures var fuel := BoilerFuel(pf, u.plantIdEia, crosswalk[i].eiaBoilerId.value, u.reportDate);
      CrosswalkMatch(u, crosswalk, pf) == if fuel.Some? then fuel.value else GeneratorPath(u, crosswalk, pf)
  {
    FirstIsEarliest(crosswalk, CrosswalkUnitIs(u.plantIdEia, u.unitId), i);
  }

  // ---------------------------------------------------------------------------------------
  // Stage 4: the crosswalk's fuel code (fuel_code_lookup)
  // ---------------------------------------------------------------------------------------

  datatype LookupLevel = UnitLevel | PlantLevel

  function CrosswalkEiaUnitIs(plant: int, unitId: string): CrosswalkRow -> bool
  {
    (c: CrosswalkRow) => c.eiaPlantId == Some(plant) && c.camdUnitId == unitId
  }

  function CrosswalkEiaPlantIs(plant: int): CrosswalkRow -> bool
  {
    (c: CrosswalkRow) => c.eiaPlantId == Some(plant)
  }

  /** fuel_code_lookup: the EIA fuel code of the first crosswalk row of the unit (level 'unit') or
      of the plant (level 'plant'), matched on the EIA plant id. The cell itself may be null; a
      missing row gives "unknown" for a unit and the empty string for a plant. */
  function FuelCodeLookup(plant: int, unitId: string, level: LookupLevel, crosswalk: seq<CrosswalkRow>): (f: Option<string>)
    ensures level == UnitLevel && (forall c :: c in crosswalk ==> !CrosswalkEiaUnitIs(plant, unitId)(c)) ==> f == Some(Unknown)
    ensures level == PlantLevel && (forall c :: c in crosswalk ==> c.eiaPlantId != Some(plant)) ==> f == Some("")
    ensures f.None? ==> exists c :: c in crosswalk && c.eiaPlantId == Some(plant) && c.eiaFuelType.None?
    ensures f.Some? && f != Some(Unknown) && f != Some("") ==> exists c :: c in crosswalk && c.eiaPlantId == Some(plant) && c.eiaFuelType == f
    ensures forall i :: (level == UnitLevel && 0 <= i < |crosswalk| && CrosswalkEiaUnitIs(plant, unitId)(crosswalk[i])
      && (forall j :: 0 <= j < i ==> !CrosswalkEiaUnitIs(plant, unitId)(crosswalk[j]))) ==> f == crosswalk[i].eiaFuelType
    ensures forall i :: (level == PlantLevel && 0 <= i < |crosswalk| && CrosswalkEiaPlantIs(plant)(crosswalk[i])
      && (forall j :: 0 <= j < i ==> !CrosswalkEiaPlantIs(plant)(crosswalk[j]))) ==> f == crosswalk[i].eiaFuelType
  {
    match level
    case UnitLevel =>
      var p := CrosswalkEiaUnitIs(plant, unitId);
      FirstIsEveryEarliest(crosswalk, p);
      var cw := First(crosswalk, p);
      if cw.Some? then cw.value.eiaFuelType else Some(Unknown)
    case PlantLevel =>
      var p := CrosswalkEiaPlantIs(plant);
      FirstIsEveryEarliest(crosswalk, p);
      var cw := First(crosswalk, p);
      if cw.Some? then cw.value.eiaFuelType else Some("")
  }

  // ---------------------------------------------------------------------------------------
  // The cascade (monthly_fuel_types, epa_unit_list)
  // ---------------------------------------------------------------------------------------

  function UnitMonthOf(r: CemsRow): UnitMonth
  {
    (r.plantIdEia, r.unitId, r.reportDate)
  }

  /** epa_unit_list: the distinct (plant, unit, month) keys of the CEMS table. */
  function EpaUnitList(cems: seq<CemsRow>): (keys: seq<UnitMonth>)
    ensures NoDups(keys)
    ensures forall k :: k in keys <==> exists r :: r in cems && UnitMonthOf(r) == k
  {
    var all := seq(|cems|, i requires 0 <= i < |cems| => UnitMonthOf(cems[i]));
    assert forall k :: k in all <==> exists r :: r in cems && UnitMonthOf(r) == k by {
      forall k | k in all ensures exists r :: r in cems && UnitMonthOf(r) == k {
        var i :| 0 <= i < |all| && all[i] == k;
        assert cems[i] in cems;
      }
      forall k | exists r :: r in cems && UnitMonthOf(r) == k ensures k in all {
        var r :| r in cems && UnitMonthOf(r) == k;
        var i :| 0 <= i < |cems| && cems[i] == r;
        assert all[i] == k;
      }
    }
    Distinct(all)
  }

  /** A unit of the `missing` selection: one still labelled "unknown". */
  function Missing(k: UnitMonth): EpaUnit
  {
    EpaUnit(k.0, k.1, k.2, Unknown)
  }

  /** `epa_units.update(missing)` after a stage, for one unit: only a fuel still "unknown" takes
      the stage's answer, and a null answer writes nothing. */
  function Step(fuel: string, answer: Option<string>): string
  {
    if fuel == Unknown && answer.Some? then answer.value else fuel
  }

  /** The fuel after the given stages have run in order, starting from "unknown". */
  function ApplyStages(answers: seq<Option<string>>): string
  {
    if answers == [] then Unknown else Step(ApplyStages(answers[..|answers| - 1]), answers[|answers| - 1])
  }

  /** The answer names no fuel. */
  predicate NoFuel(answer: Option<string>)
  {
    answer.None? || answer.value == Unknown
  }

  /** The answers of the four stages for one unit, in the cascade's order: the single-fuel merge,
      the unit-boiler match, the crosswalk match and the crosswalk's fuel code. */
  function StageAnswers(k: UnitMonth, units: seq<UnitMonth>, pf: seq<PrimaryFuelRow>, crosswalk: seq<CrosswalkRow>): seq<Option<string>>
  {
    [SingleFuel(pf, k.0, k.2), Some(AssignBoilerFuelType(Missing(k), units, pf)),
     Some(CrosswalkMatch(Missing(k), crosswalk, pf)), FuelCodeLookup(k.0, k.1, UnitLevel, crosswalk)]
  }

  /** The unit after all four stages. */
  function CascadeUnit(k: UnitMonth, units: seq<UnitMonth>, pf: seq<PrimaryFuelRow>, crosswalk: seq<CrosswalkRow>): EpaUnit
  {
    EpaUnit(k.0, k.1, k.2, ApplyStages(StageAnswers(k, units, pf, crosswalk)))
  }

  /** A unit ends "unknown" exactly when no stage answers with a fuel. */
  lemma {:induction false} UnknownIffNoStageAnswers(answers: seq<Option<string>>)
    ensures ApplyStages(answers) == Unknown <==> forall j :: 0 <= j < |answers| ==> NoFuel(answers[j])
  {
    if answers != [] {
      var init := answers[..|answers| - 1];
      UnknownIffNoStageAnswers(init);
      assert forall j :: 0 <= j < |init| ==> init[j] == answers[j];
    }
  }

  /** The first stage that answers with a fuel decides the unit's fuel. */
  lemma {:induction false} FirstKnownStageWins(answers: seq<Option<string>>, i: nat)
    requires i < |answers| && !NoFuel(answers[i])
    requires forall j :: 0 <= j < i ==> NoFuel(answers[j])
    ensures ApplyStages(answers) == answers[i].value
  {
    var init := answers[..|answers| - 1];
    assert forall j :: 0 <= j < |init| ==> init[j] == answers[j];
    if i == |answers| - 1 {
      UnknownIffNoStageAnswers(init);
    } else {
      FirstKnownStageWins(init, i);
    }
  }

  /** A fuel once assigned is never overwritten by the stages that follow. */
  lemma {:induction false} AssignedFuelIsKept(answers: seq<Option<string>>, later: seq<Option<string>>)
    requires ApplyStages(answers) != Unknown
    ensures ApplyStages(answers + later) == ApplyStages(answers)
  {
    if later != [] {
      var all := answers + later;
      assert all[..|all| - 1] == answers + later[..|later| - 1];
      AssignedFuelIsKept(answers, later[..|later| - 1]);
    } else {
      assert answers + later == answers;
    }
  }

  function KeyOf(u: EpaUnit): UnitMonth
  {
    (u.plantIdEia, u.unitId, u.reportDate)
  }

  /** Stages 2 to 4 applied to one row of the unit table: the stage's function is applied to
      the rows still labelled "unknown" and `update` writes its non-null answers back. */
  function FillStage2(u: EpaUnit, units: seq<UnitMonth>, pf: seq<PrimaryFuelRow>): EpaUnit
  {
    u.(primaryFuel := Step(u.primaryFuel, Some(AssignBoilerFuelType(Missing(KeyOf(u)), units, pf))))
  }

  function FillStage3(u: EpaUnit, crosswalk: seq<CrosswalkRow>, pf: seq<PrimaryFuelRow>): EpaUnit
  {
    u.(primaryFuel := Step(u.primaryFuel, Some(CrosswalkMatch(Missing(KeyOf(u)), crosswalk, pf))))
  }

  function FillStage4(u: EpaUnit, crosswalk: seq<CrosswalkRow>): EpaUnit
  {
    u.(primaryFuel := Step(u.primaryFuel, FuelCodeLookup(u.plantIdEia, u.unitId, UnitLevel, crosswalk)))
  }

  lemma ApplyFourStages(a: Option<string>, b: Option<string>, c: Option<string>, d: Option<string>)
    ensures ApplyStages([a, b, c, d]) == Step(Step(Step(Step(Unknown, a), b), c), d)
  {
    assert [a, b, c, d][..3] == [a, b, c];
    assert [a, b, c][..2] == [a, b];
    assert [a, b][..1] == [a];
    assert [a][..0] == [];
    assert ApplyStages([a]) == Step(Unknown, a);
    assert ApplyStages([a, b]) == Step(ApplyStages([a]), b);
    assert ApplyStages([a, b, c]) == Step(ApplyStages([a, b]), c);
  }

  /** monthly_fuel_types on tables already loaded: the heat column is added to the boiler fuel
      table, the single-fuel merge builds the unit table, and each later stage rewrites only the
      units still labelled "unknown". */
  method MonthlyFuelTypes(cems: seq<CemsRow>, boilerFuel: array<BoilerFuelRow>, crosswalk: seq<CrosswalkRow>)
    returns (epaUnits: array<EpaUnit>)
    modifies boilerFuel
    ensures forall i :: 0 <= i < boilerFuel.Length ==> boilerFuel[i] == WithFuelMmbtu(old(boilerFuel[i]))
    ensures fresh(epaUnits)
    ensures var units := EpaUnitList(cems);
      var pf := PrimaryFuelBf(boilerFuel[..], FuelThreshold);
      epaUnits.Length == |units|
      && forall i :: 0 <= i < |units| ==> epaUnits[i] == CascadeUnit(units[i], units, pf, crosswalk)
  {
    var units := EpaUnitList(cems);
    AddFuelConsumedMmbtu(boilerFuel);
    var pf := PrimaryFuelBf(boilerFuel[..], FuelThreshold);
    epaUnits := RunStages(units, pf, crosswalk);
  }

  /** The unit table built from the single-fuel merge, then stages 2 to 4 each rewriting the
      units still labelled "unknown". */
  method RunStages(units: seq<UnitMonth>, pf: seq<PrimaryFuelRow>, crosswalk: seq<CrosswalkRow>)
    returns (epaUnits: array<EpaUnit>)
    ensures fresh(epaUnits)
    ensures epaUnits.Length == |units|
    ensures forall i :: 0 <= i < |units| ==> epaUnits[i] == CascadeUnit(units[i], units, pf, crosswalk)
  {
    epaUnits := new EpaUnit[|units|](i requires 0 <= i < |units| => AfterStage1(units[i], pf));
    ghost var s1 := epaUnits[..];
    forall i | 0 <= i < epaUnits.Length {
      epaUnits[i] := FillStage2(epaUnits[i], units, pf);
    }
    ghost var s2 := epaUnits[..];
    forall i | 0 <= i < epaUnits.Length {
      epaUnits[i] := FillStage3(epaUnits[i], crosswalk, pf);
    }
    ghost var s3 := epaUnits[..];
    forall i | 0 <= i < epaUnits.Length {
      epaUnits[i] := FillStage4(epaUnits[i], crosswalk);
    }
    forall i | 0 <= i < |units| ensures epaUnits[i] == CascadeUnit(units[i], units, pf, crosswalk) {
      assert s1[i] == AfterStage1(units[i], pf);
      assert s2[i] == FillStage2(s1[i], units, pf);
      assert s3[i] == FillStage3(s2[i], crosswalk, pf);
      StagesOneByOne(units[i], units, pf, crosswalk);
    }
  }

  /** Running the row-level stages one after the other is applying the stage answers in order. */
  lemma StagesOneByOne(k: UnitMonth, units: seq<UnitMonth>, pf: seq<PrimaryFuelRow>, crosswalk: seq<CrosswalkRow>)
    ensures FillStage4(FillStage3(FillStage2(AfterStage1(k, pf), units, pf), crosswalk, pf), crosswalk)
      == CascadeUnit(k, units, pf, crosswalk)
  {
    var answers := StageAnswers(k, units, pf, crosswalk);
    ApplyFourStages(answers[0], answers[1], answers[2], answers[3]);
    assert answers == [answers[0], answers[1], answers[2], answers[3]];
  }
}
