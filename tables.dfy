/** The rows of the tables the cleaning pipeline reads and writes. Every table is a
    sequence of these records; a nullable column is an `Option`. */
module Tables {
  import opened Common

  /** The label `determine_cems_reporting_status` adds to every CEMS row. */
  datatype ReportingCategory = FullYear | PartialYear

  /** One hourly CEMS observation of one unit. `reportDate` is the plant-local month key
      (`report_date`); `cemsId` identifies the unit (`cems_id`). The last two fields are
      the columns added by the reporting-status label and by the final fuel-type merge. */
  datatype CemsRow = CemsRow(
    plantIdEpa: int,
    unitId: string,
    plantIdEia: int,
    cemsId: string,
    reportDate: int,
    grossLoadMw: Option<real>,
    steamLoad1000Lbs: Option<real>,
    co2MassTons: Option<real>,
    heatContentMmbtu: Option<real>,
    grossGenerationMwh: Option<real>,
    cemsReportingCategory: Option<ReportingCategory>,
    energySourceCode: Option<string>)

  /** One row of the EPA-EIA power sector data crosswalk; CAMD is the EPA side. */
  datatype CrosswalkRow = CrosswalkRow(
    camdPlantId: int,
    camdUnitId: string,
    camdGeneratorId: Option<string>,
    eiaPlantId: Option<int>,
    eiaGeneratorId: Option<string>,
    eiaBoilerId: Option<string>,
    camdFuelType: Option<string>,
    eiaFuelType: Option<string>)

  /** One row of EIA-923 generation and fuel data (`generation_fuel_eia923`). */
  datatype GenerationFuelRow = GenerationFuelRow(
    plantIdEia: int,
    primeMoverCode: string,
    reportDate: int,
    energySourceCode: string,
    fuelConsumedMmbtu: Option<real>,
    fuelConsumedForElectricityMmbtu: Option<real>)
}
