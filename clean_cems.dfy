/** clean_cems (src/data_cleaning.py): the hourly CEMS table through the plant filters, the
    reporting-status label, the CO2 fill, the drop of unresolved units and the zero-month filter.
    The report dates are taken as given: add_report_date's time-zone conversion is not modelled. */
module CleanCemsPipeline {
  import opened Common
  import opened Tables
  import opened Filters
  import opened Co2Imputation

  /** Every row of a table filled row by row. */
  function FillAll(rows: seq<CemsRow>, inputs: Co2Inputs): (filled: seq<CemsRow>)
    ensures |filled| == |rows|
    ensures forall i :: 0 <= i < |rows| ==> filled[i] == FilledRow(rows[i], inputs)
  {
    seq(|rows|, i requires 0 <= i < |rows| => FilledRow(rows[i], inputs))
  }

  /** The cleaned table as a function of the raw one. */
  function CleanedCems(raw: seq<CemsRow>, ngcPlants: seq<int>, inputs: Co2Inputs): seq<CemsRow>
  {
    var kept := RemoveHeatingOnlyPlants(RemoveNonGridConnectedPlants(raw, ngcPlants));
    var filled := FillAll(DetermineCemsReportingStatus(kept), inputs);
    RemoveCemsWithZeroMonthlyEmissions(DropUnitsWithMissingCo2(filled))
  }

  /** clean_cems on tables already loaded: the fill works in place on an array of the rows. */
  method CleanCems(raw: seq<CemsRow>, ngcPlants: seq<int>, inputs: Co2Inputs) returns (cleaned: seq<CemsRow>)
    ensures cleaned == CleanedCems(raw, ngcPlants, inputs)
    ensures forall r :: r in cleaned ==> r.co2MassTons.Some?
    ensures forall r :: r in cleaned ==> r.cemsReportingCategory.Some?
    ensures forall r :: r in cleaned ==> GridConnectedRow(r, ngcPlants)
  {
    var kept := RemoveNonGridConnectedPlants(raw, ngcPlants);
    kept := RemoveHeatingOnlyPlants(kept);
    var labelled := DetermineCemsReportingStatus(kept);
    var table := new CemsRow[|labelled|](i requires 0 <= i < |labelled| => labelled[i]);
    FillCemsMissingCo2(table, inputs);
    var filled := table[..];
    assert filled == FillAll(labelled, inputs);
    cleaned := DropUnitsWithMissingCo2(filled);
    cleaned := RemoveCemsWithZeroMonthlyEmissions(cleaned);
    CleanedRowsAreLabelledAndGridConnected(raw, ngcPlants, inputs);
  }

  /** The plant of the row is grid connected. */
  predicate GridConnectedRow(r: CemsRow, ngcPlants: seq<int>)
  {
    r.plantIdEia !in ngcPlants && !(880000 <= Abs(r.plantIdEia) % 1000000 <= 889999)
  }

  /** Every row is of a grid-connected plant and, when `labelled`, carries a reporting label. */
  predicate Clean(rows: seq<CemsRow>, ngcPlants: seq<int>, labelled: bool)
  {
    forall r :: r in rows ==> GridConnectedRow(r, ngcPlants) && (labelled ==> r.cemsReportingCategory.Some?)
  }

  lemma GridStageClean(raw: seq<CemsRow>, ngcPlants: seq<int>)
    ensures Clean(RemoveHeatingOnlyPlants(RemoveNonGridConnectedPlants(raw, ngcPlants)), ngcPlants, false)
  {
    NonGridFilterIsOnePlantFilter(raw, ngcPlants);
  }

  lemma LabelStageClean(rows: seq<CemsRow>, ngcPlants: seq<int>)
    requires Clean(rows, ngcPlants, false)
    ensures Clean(DetermineCemsReportingStatus(rows), ngcPlants, true)
  {
    var labelled := DetermineCemsReportingStatus(rows);
    forall r | r in labelled ensures GridConnectedRow(r, ngcPlants) && r.cemsReportingCategory.Some? {
      var i :| 0 <= i < |labelled| && labelled[i] == r;
      assert rows[i] in rows;
    }
  }

  lemma FillStageClean(rows: seq<CemsRow>, ngcPlants: seq<int>, inputs: Co2Inputs)
    requires Clean(rows, ngcPlants, true)
    ensures Clean(FillAll(rows, inputs), ngcPlants, true)
  {
    var filled := FillAll(rows, inputs);
    forall r | r in filled ensures GridConnectedRow(r, ngcPlants) && r.cemsReportingCategory.Some? {
      var i :| 0 <= i < |filled| && filled[i] == r;
      FillChangesOnlyCo2AndFuelType(rows[i], inputs);
      assert rows[i] in rows;
    }
  }

  /** Every cleaned row has a CO2 value, carries a reporting label and belongs to a
      grid-connected plant. */
  lemma CleanedRowsAreLabelledAndGridConnected(raw: seq<CemsRow>, ngcPlants: seq<int>, inputs: Co2Inputs)
    ensures forall r :: r in CleanedCems(raw, ngcPlants, inputs) ==>
      r.co2MassTons.Some? && r.cemsReportingCategory.Some? && GridConnectedRow(r, ngcPlants)
  {
    var kept := RemoveHeatingOnlyPlants(RemoveNonGridConnectedPlants(raw, ngcPlants));
    var labelled := DetermineCemsReportingStatus(kept);
    var filled := FillAll(labelled, inputs);
    GridStageClean(raw, ngcPlants);
    LabelStageClean(kept, ngcPlants);
    FillStageClean(labelled, ngcPlants, inputs);
    var dropped := DropUnitsWithMissingCo2(filled);
    assert forall r :: r in RemoveCemsWithZeroMonthlyEmissions(dropped) ==> r in dropped;
  }
}
