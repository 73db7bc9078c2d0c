/** convert_gross_to_net_generation and model_gross_to_net (src/data_cleaning.py): hourly
    gross generation in CEMS scaled to net generation by a plant-month ratio taken from the
    EIA net generation allocated to CEMS, or, where no monthly ratio exists, by the slope of
    a per-plant regression of net on gross generation. The least-squares fit itself and the
    outlier test are parameters. */
module GrossToNet {
  import opened Common
  import opened Tables

  const MonthlyRatioTag := "monthly_ratio"
  const AnnualRegressionTag := "annual_regression"
  const NetEqualsGrossTag := "net_equals_gross"

  /** Monthly ratios kept for the regression lie in [0.5, 1.5]. */
  const MinRegressionRatio := 0.5
  const MaxRegressionRatio := 1.5
  /** A regression is used only with an adjusted R-squared of at least 0.8. */
  const MinAdjustedRSquared := 0.8

  /** A row of the allocated EIA generation table (`gen_fuel_allocated`): the columns the
      conversion reads. */
  datatype AllocatedRow = AllocatedRow(
    plantIdEia: int,
    reportDate: int,
    dataSource: string,
    netGenerationMwh: Option<real>)

  /** A (plant_id_eia, report_date) key. */
  type PlantMonth = (int, int)

  function PlantMonthOf(r: CemsRow): PlantMonth
  {
    (r.plantIdEia, r.reportDate)
  }

  function AllocatedPlantMonth(a: AllocatedRow): PlantMonth
  {
    (a.plantIdEia, a.reportDate)
  }

  function GrossOr0(r: CemsRow): real
  {
    ValueOr0(r.grossGenerationMwh)
  }

  function NetOr0(a: AllocatedRow): real
  {
    ValueOr0(a.netGenerationMwh)
  }

  /** An allocated row of the plant-month k that comes from CEMS data and has a net value. */
  function CemsNetAt(k: PlantMonth): AllocatedRow -> bool
  {
    (a: AllocatedRow) => a.dataSource == "cems" && a.netGenerationMwh.Some? && AllocatedPlantMonth(a) == k
  }

  /** The EIA net generation of a plant-month: the sum over its CEMS-sourced rows with a net
      value; null where there is no such row (the left merge finds nothing). */
  function EiaNetGeneration(alloc: seq<AllocatedRow>, k: PlantMonth): (net: Option<real>)
    ensures net.None? <==> forall a :: a in alloc ==> !CemsNetAt(k)(a)
    ensures net.Some? ==> net.value == SumWhere(alloc, CemsNetAt(k), NetOr0)
  {
    var rows := Filter(alloc, CemsNetAt(k));
    if rows == [] then None
    else
      assert rows[0] in rows;
      Some(SumOf(rows, NetOr0))
  }

  /** The CEMS gross generation of a plant-month, nulls counted as zero. */
  function CemsGrossGeneration(cems: seq<CemsRow>, k: PlantMonth): real
  {
    GroupTotal(cems, PlantMonthOf, GrossOr0)(k)
  }

  /** The distinct plant-months of the CEMS table (the groups of the gross total). */
  function PlantMonths(cems: seq<CemsRow>): (keys: seq<PlantMonth>)
    ensures NoDups(keys)
    ensures forall k :: k in keys <==> exists r :: r in cems && PlantMonthOf(r) == k
  {
    var all := seq(|cems|, i requires 0 <= i < |cems| => PlantMonthOf(cems[i]));
    assert forall k :: k in all <==> exists r :: r in cems && PlantMonthOf(r) == k by {
      forall k | k in all ensures exists r :: r in cems && PlantMonthOf(r) == k {
        var i :| 0 <= i < |all| && all[i] == k;
        assert cems[i] in cems;
      }
      forall k | exists r :: r in cems && PlantMonthOf(r) == k ensures k in all {
        var r :| r in cems && PlantMonthOf(r) == k;
        var i :| 0 <= i < |cems| && cems[i] == r;
        assert all[i] == k;
      }
    }
    Distinct(all)
  }

  /** A row of `monthly_gtn_ratio` before the regression is merged in. */
  datatype MonthlyGtn = MonthlyGtn(
    plantIdEia: int,
    reportDate: int,
    grossGenerationMwh: real,
    netGenerationMwh: Option<real>,
    grossToNetRatio: Num)

  function MonthOfGtn(m: MonthlyGtn): PlantMonth
  {
    (m.plantIdEia, m.reportDate)
  }

  /** The monthly row of plant-month k: gross total, merged net total and their quotient. */
  function MonthlyGtnRow(cems: seq<CemsRow>, alloc: seq<AllocatedRow>, k: PlantMonth): MonthlyGtn
  {
    var gross := CemsGrossGeneration(cems, k);
    var net := EiaNetGeneration(alloc, k);
    MonthlyGtn(k.0, k.1, gross, net, DivOpt(net, Some(gross)))
  }

  function MonthlyGtnMaker(cems: seq<CemsRow>, alloc: seq<AllocatedRow>): PlantMonth -> MonthlyGtn
  {
    (k: PlantMonth) => MonthlyGtnRow(cems, alloc, k)
  }

  /** The monthly ratio table: one row per CEMS plant-month, the left merge of the net totals
      into the gross totals. */
  function MonthlyGtnRatios(cems: seq<CemsRow>, alloc: seq<AllocatedRow>): (table: seq<MonthlyGtn>)
    ensures forall m :: m in table <==>
      (exists r :: r in cems && PlantMonthOf(r) == MonthOfGtn(m)) && m == MonthlyGtnRow(cems, alloc, MonthOfGtn(m))
    ensures forall i, j :: 0 <= i < j < |table| ==> MonthOfGtn(table[i]) != MonthOfGtn(table[j])
  {
    var keys := PlantMonths(cems);
    var table := seq(|keys|, i requires 0 <= i < |keys| => MonthlyGtnRow(cems, alloc, keys[i]));
    ListedByKey(keys, table, MonthOfGtn, MonthlyGtnMaker(cems, alloc));
    table
  }

  /** The gross totals of the plant-months add up to the gross generation of the whole table. */
  lemma MonthlyGrossTotalsCoverCems(cems: seq<CemsRow>)
    ensures SumOf(PlantMonths(cems), GroupTotal(cems, PlantMonthOf, GrossOr0)) == SumOf(cems, GrossOr0)
  {
    GroupTotalsPartition(cems, PlantMonthOf, PlantMonths(cems), GrossOr0);
  }

  /** A monthly ratio is missing exactly when EIA has no CEMS-sourced net value for the
      plant-month, or both totals are zero; a finite ratio is net over gross. */
  lemma {:induction false} MonthlyRatioMissingIff(cems: seq<CemsRow>, alloc: seq<AllocatedRow>, k: PlantMonth)
    ensures var m := MonthlyGtnRow(cems, alloc, k);
      m.grossToNetRatio == NaN <==>
        (forall a :: a in alloc ==> !CemsNetAt(k)(a)) || (m.netGenerationMwh == Some(0.0) && m.grossGenerationMwh == 0.0)
    ensures var m := MonthlyGtnRow(cems, alloc, k);
      m.grossToNetRatio.Fin? ==>
        m.grossGenerationMwh != 0.0 && m.netGenerationMwh.Some?
        && m.grossToNetRatio.v * m.grossGenerationMwh == m.netGenerationMwh.value
  {
    var m := MonthlyGtnRow(cems, alloc, k);
    if m.grossToNetRatio.Fin? {
      assert m.grossToNetRatio.v == m.netGenerationMwh.value / m.grossGenerationMwh;
    }
  }

  /** The regression's data filter: a finite ratio within [0.5, 1.5]; NaN and infinities fail
      both comparisons. */
  predicate InRegressionRange(q: Num)
  {
    q.Fin? && MinRegressionRatio <= q.v <= MaxRegressionRatio
  }

  function RegressionRowOf(plant: int): MonthlyGtn -> bool
  {
    (m: MonthlyGtn) => m.plantIdEia == plant && InRegressionRange(m.grossToNetRatio)
  }

  /** The months of one plant that enter its regression. */
  function RegressionRows(table: seq<MonthlyGtn>, plant: int): (rows: seq<MonthlyGtn>)
    ensures forall m :: m in rows <==>
      m in table && m.plantIdEia == plant && m.grossToNetRatio.Fin?
      && 0.5 <= m.grossToNetRatio.v <= 1.5
  {
    Filter(table, RegressionRowOf(plant))
  }

  /** What statsmodels reports of one least-squares fit of net on gross generation. */
  datatype Fit = Fit(slope: real, rsquared: real, rsquaredAdj: real, observations: nat)

  /** The least-squares fit of net on gross generation over some months. */
  type Ols = seq<MonthlyGtn> -> Fit

  /** The Bonferroni outlier test: the months flagged with a p-value below 0.5, or `None`
      where the test raises ValueError. */
  type OutlierTest = seq<MonthlyGtn> -> Option<seq<MonthlyGtn>>

  function NotIn(flagged: seq<MonthlyGtn>): MonthlyGtn -> bool
  {
    (m: MonthlyGtn) => m !in flagged
  }

  /** The months the final fit is estimated on: all of them when the outlier test fails,
      otherwise those not flagged as outliers. */
  function FittedSample(rows: seq<MonthlyGtn>, outliers: OutlierTest): (sample: seq<MonthlyGtn>)
    ensures forall m :: m in sample ==> m in rows
    ensures outliers(rows).None? ==> sample == rows
    ensures outliers(rows).Some? ==> forall m :: m in rows ==> (m in sample <==> m !in outliers(rows).value)
  {
    var flagged := outliers(rows);
    if flagged.None? then rows else Filter(rows, NotIn(flagged.value))
  }

  /** model_gross_to_net: the fit on the months left after removing outliers. */
  function ModelGrossToNet(rows: seq<MonthlyGtn>, ols: Ols, outliers: OutlierTest): Fit
  {
    ols(FittedSample(rows, outliers))
  }

  /** The accepted regression slope (`gtn_linear`) of a plant: none where the plant has no
      month in range (it is not a group of the regression) or the adjusted R-squared is below
      0.8. */
  function RegressionSlope(table: seq<MonthlyGtn>, plant: int, ols: Ols, outliers: OutlierTest): Option<real>
  {
    var rows := RegressionRows(table, plant);
    if rows == [] then None
    else
      var fit := ModelGrossToNet(rows, ols, outliers);
      if fit.rsquaredAdj >= MinAdjustedRSquared then Some(fit.slope) else None
  }

  /** An accepted slope comes from a fit with adjusted R-squared of at least 0.8, estimated on
      months of that plant only, each with a finite monthly ratio within [0.5, 1.5]. */
  lemma {:induction false} SlopeFromPlausibleMonths(table: seq<MonthlyGtn>, plant: int, ols: Ols, outliers: OutlierTest)
    ensures var slope := RegressionSlope(table, plant, ols, outliers);
      slope.Some? ==> exists sample: seq<MonthlyGtn> ::
        slope.value == ols(sample).slope && ols(sample).rsquaredAdj >= 0.8
        && forall m :: m in sample ==> m in table && m.plantIdEia == plant && InRegressionRange(m.grossToNetRatio)
  {
    var slope := RegressionSlope(table, plant, ols, outliers);
    if slope.Some? {
      var rows := RegressionRows(table, plant);
      var sample := FittedSample(rows, outliers);
      assert forall m :: m in sample ==> m in rows;
      assert slope.value == ols(sample).slope && ols(sample).rsquaredAdj >= 0.8;
    }
  }

  /** `gtn_linear` merged onto every month, by plant. */
  function SlopeFor(table: seq<MonthlyGtn>, ols: Ols, outliers: OutlierTest): int -> Option<real>
  {
    (plant: int) => RegressionSlope(table, plant, ols, outliers)
  }

  /** The ratio after `fillna(gtn_linear)`: the monthly ratio, or the plant's slope where the
      monthly ratio is NaN. An infinite ratio is not NaN and is kept. */
  function FinalRatio(m: MonthlyGtn, slope: Option<real>): (q: Num)
    ensures m.grossToNetRatio != NaN ==> q == m.grossToNetRatio
    ensures m.grossToNetRatio == NaN ==> (q == NaN <==> slope.None?)
    ensures q.Fin? && m.grossToNetRatio == NaN ==> slope == Some(q.v)
  {
    if m.grossToNetRatio == NaN && slope.Some? then Fin(slope.value) else m.grossToNetRatio
  }

  /** The gross generation cell as a float. */
  function GrossCell(gross: Option<real>): Num
  {
    if gross.Some? then Fin(gross.value) else NaN
  }

  /** Hourly net generation: gross times ratio, written over the gross placeholder only where
      the product is not NaN (`Series.update`). */
  function NetGeneration(gross: Option<real>, ratio: Num): (net: Num)
    ensures ratio.Fin? && gross.Some? ==> net == Fin(gross.value * ratio.v)
    ensures ratio == NaN ==> net == GrossCell(gross)
    ensures gross.None? ==> net == NaN
    ensures ratio.Inf? && gross == Some(0.0) ==> net == Fin(0.0)
  {
    var calculated := MulOpt(gross, ratio);
    if calculated != NaN then calculated else GrossCell(gross)
  }

  /** The method label as the conversion writes it: "annual_regression" for every month whose
      monthly ratio is NaN, whether or not a slope was found, and "net_equals_gross" only for
      hours whose plant-month is not in the monthly table. */
  function NetGenMethodAsWritten(month: Option<MonthlyGtn>): (tag: string)
    ensures tag == NetEqualsGrossTag <==> month.None?
    ensures month.Some? ==> (tag == AnnualRegressionTag <==> month.value.grossToNetRatio == NaN)
  {
    if month.None? then NetEqualsGrossTag
    else if month.value.grossToNetRatio == NaN then AnnualRegressionTag
    else MonthlyRatioTag
  }

  /** The method label as intended: "net_equals_gross" for every hour left on the 1:1
      default, "annual_regression" only where the slope was used. */
  function NetGenMethod(month: Option<MonthlyGtn>, slope: Option<real>): (tag: string)
    ensures tag == NetEqualsGrossTag <==> month.None? || FinalRatio(month.value, slope) == NaN
    ensures tag == AnnualRegressionTag <==>
      month.Some? && month.value.grossToNetRatio == NaN && FinalRatio(month.value, slope).Fin?
    ensures tag == MonthlyRatioTag <==> month.Some? && month.value.grossToNetRatio != NaN
  {
    if month.None? then NetEqualsGrossTag
    else if month.value.grossToNetRatio != NaN then MonthlyRatioTag
    else if slope.Some? then AnnualRegressionTag
    else NetEqualsGrossTag
  }

  /** Which labelling the conversion applies. */
  datatype Labelling = AsWritten | Intended

  /** An hourly CEMS row with the columns the conversion adds. */
  datatype NetGenRow = NetGenRow(
    row: CemsRow,
    grossToNetRatio: Num,
    netGenMethod: string,
    netGenerationMwh: Num)

  function MonthIs(k: PlantMonth): MonthlyGtn -> bool
  {
    (m: MonthlyGtn) => MonthOfGtn(m) == k
  }

  /** One hour after the left merge of the monthly table, the net calculation and the label. */
  function ConvertRow(r: CemsRow, table: seq<MonthlyGtn>, slopeOf: int -> Option<real>, labelling: Labelling): NetGenRow
  {
    var month := First(table, MonthIs(PlantMonthOf(r)));
    var slope := if month.Some? then slopeOf(month.value.plantIdEia) else None;
    var ratio := if month.Some? then FinalRatio(month.value, slope) else NaN;
    var tag := if labelling == AsWritten then NetGenMethodAsWritten(month) else NetGenMethod(month, slope);
    NetGenRow(r, ratio, tag, NetGeneration(r.grossGenerationMwh, ratio))
  }

  /** convert_gross_to_net_generation with either labelling: one output row per input hour,
      in the same order. */
  function ConvertWith(cems: seq<CemsRow>, alloc: seq<AllocatedRow>, ols: Ols, outliers: OutlierTest, labelling: Labelling)
    : (out: seq<NetGenRow>)
    ensures |out| == |cems|
    ensures forall i :: 0 <= i < |cems| ==> out[i].row == cems[i]
  {
    var table := MonthlyGtnRatios(cems, alloc);
    var slopeOf := SlopeFor(table, ols, outliers);
    seq(|cems|, i requires 0 <= i < |cems| => ConvertRow(cems[i], table, slopeOf, labelling))
  }

  /** The conversion as the model uses it: the intended labelling. */
  function ConvertGrossToNetGeneration(cems: seq<CemsRow>, alloc: seq<AllocatedRow>, ols: Ols, outliers: OutlierTest)
    : (out: seq<NetGenRow>)
    ensures |out| == |cems|
    ensures forall i :: 0 <= i < |cems| ==> out[i].row == cems[i]
  {
    ConvertWith(cems, alloc, ols, outliers, Intended)
  }

  /** Every hour finds its own plant-month in the monthly table. */
  lemma {:induction false} HourFindsItsMonth(cems: seq<CemsRow>, alloc: seq<AllocatedRow>, i: int)
    requires 0 <= i < |cems|
    ensures First(MonthlyGtnRatios(cems, alloc), MonthIs(PlantMonthOf(cems[i])))
      == Some(MonthlyGtnRow(cems, alloc, PlantMonthOf(cems[i])))
  {
    var table := MonthlyGtnRatios(cems, alloc);
    var k := PlantMonthOf(cems[i]);
    var m := MonthlyGtnRow(cems, alloc, k);
    assert cems[i] in cems;
    assert MonthOfGtn(m) == k;
    assert m in table;
    var found := First(table, MonthIs(k));
    assert found.Some?;
  }

  /** Every hour of the output: its ratio is its plant-month's ratio, or the plant's accepted
      slope where that is NaN; its net generation is gross times that ratio, or gross where
      the product is NaN; and its label is the intended one. */
  lemma {:induction false} ConvertedHour(cems: seq<CemsRow>, alloc: seq<AllocatedRow>, ols: Ols, outliers: OutlierTest, i: int)
    requires 0 <= i < |cems|
    ensures var out := ConvertGrossToNetGeneration(cems, alloc, ols, outliers);
      var m := MonthlyGtnRow(cems, alloc, PlantMonthOf(cems[i]));
      var slope := RegressionSlope(MonthlyGtnRatios(cems, alloc), cems[i].plantIdEia, ols, outliers);
      out[i].grossToNetRatio == FinalRatio(m, slope)
      && out[i].netGenerationMwh == NetGeneration(cems[i].grossGenerationMwh, FinalRatio(m, slope))
      && out[i].netGenMethod == NetGenMethod(Some(m), slope)
  {
    HourFindsItsMonth(cems, alloc, i);
  }

  /** The intended labels: "monthly_ratio" exactly where EIA gives the plant-month a
      CEMS-sourced net value and not both totals are zero; "net_equals_gross" exactly where
      the hour keeps its gross value for want of any ratio. */
  lemma {:induction false} LabelsMatchMethod(cems: seq<CemsRow>, alloc: seq<AllocatedRow>, ols: Ols, outliers: OutlierTest, i: int)
    requires 0 <= i < |cems|
    ensures var out := ConvertGrossToNetGeneration(cems, alloc, ols, outliers);
      var k := PlantMonthOf(cems[i]);
      out[i].netGenMethod == MonthlyRatioTag <==>
        (exists a :: a in alloc && CemsNetAt(k)(a))
        && !(EiaNetGeneration(alloc, k) == Some(0.0) && CemsGrossGeneration(cems, k) == 0.0)
    ensures var out := ConvertGrossToNetGeneration(cems, alloc, ols, outliers);
      out[i].netGenMethod == NetEqualsGrossTag <==> out[i].grossToNetRatio == NaN
    ensures var out := ConvertGrossToNetGeneration(cems, alloc, ols, outliers);
      out[i].netGenMethod == NetEqualsGrossTag ==> out[i].netGenerationMwh == GrossCell(cems[i].grossGenerationMwh)
    ensures var out := ConvertGrossToNetGeneration(cems, alloc, ols, outliers);
      out[i].netGenMethod == AnnualRegressionTag ==>
        out[i].grossToNetRatio == Fin(RegressionSlope(MonthlyGtnRatios(cems, alloc), cems[i].plantIdEia, ols, outliers).value)
  {
    ConvertedHour(cems, alloc, ols, outliers, i);
    MonthlyRatioMissingIff(cems, alloc, PlantMonthOf(cems[i]));
  }

  /** As written, no hour is ever labelled "net_equals_gross": every hour's plant-month is in
      the monthly table, so the final fillna has nothing to fill. */
  lemma {:induction false} AsWrittenNeverNetEqualsGross(cems: seq<CemsRow>, alloc: seq<AllocatedRow>, ols: Ols, outliers: OutlierTest)
    ensures forall i :: 0 <= i < |cems| ==>
      ConvertWith(cems, alloc, ols, outliers, AsWritten)[i].netGenMethod != NetEqualsGrossTag
  {
    forall i | 0 <= i < |cems|
      ensures ConvertWith(cems, alloc, ols, outliers, AsWritten)[i].netGenMethod != NetEqualsGrossTag
    {
      HourFindsItsMonth(cems, alloc, i);
    }
  }

  /** A plant with 100 MWh gross in one month and no EIA net generation: no ratio and no
      regression, so the hour keeps its gross value, yet the code labels it
      "annual_regression"; the intended labelling says "net_equals_gross". */
  lemma AsWrittenMislabelsDefault(ols: Ols, outliers: OutlierTest)
    ensures var r := CemsRow(1, "1", 1, "1_1", 1, None, None, None, None, Some(100.0), None, None);
      var asWritten := ConvertWith([r], [], ols, outliers, AsWritten);
      var intended := ConvertGrossToNetGeneration([r], [], ols, outliers);
      asWritten[0].netGenMethod == AnnualRegressionTag
      && asWritten[0].netGenerationMwh == Fin(100.0)
      && asWritten[0].grossToNetRatio == NaN
      && intended[0].netGenMethod == NetEqualsGrossTag
      && intended[0].netGenerationMwh == Fin(100.0)
  {
    var r := CemsRow(1, "1", 1, "1_1", 1, None, None, None, None, Some(100.0), None, None);
    var m := MonthlyGtnRow([r], [], (1, 1));
    assert EiaNetGeneration([], (1, 1)) == None;
    assert m.grossToNetRatio == NaN;
    var table := MonthlyGtnRatios([r], []);
    assert forall x :: x in table <==> x == m;
    assert RegressionRows(table, 1) == [];
    HourFindsItsMonth([r], [], 0);
  }
}
