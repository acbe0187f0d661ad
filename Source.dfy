/**
 * The staging tables the mappers read: MIMIC-IV rows as loaded into the
 * src_* tables, with only the columns the modelled statements use, and the
 * few tables built by stages outside this model (lk_admissions_clean,
 * lk_observation_mapped, cdm_visit_occurrence, cdm_observation_period) as
 * plain inputs.
 *
 * Event times that MIMIC-IV always fills (charttime of chart and lab events,
 * admittime and dischtime, chartdate of microbiology events) are plain
 * timestamps; nullable columns are `Option`.
 */
module Source {
  import opened Sql

  datatype Patient = Patient(
    subjectId: int,
    gender: Option<string>,
    anchorAge: int,
    anchorYear: int,
    prov: Provenance)

  datatype Admission = Admission(
    subjectId: int,
    hadmId: int,
    admittime: Timestamp,
    dischtime: Timestamp,
    ethnicity: Option<string>)

  /** A row of lk_admissions_clean: an admission's [start, end] interval. */
  datatype AdmissionClean = AdmissionClean(
    subjectId: int,
    hadmId: int,
    startDatetime: Timestamp,
    endDatetime: Timestamp)

  datatype DItem = DItem(
    itemid: int,
    itemLabel: Option<string>,
    linksto: Option<string>)

  datatype ChartEvent = ChartEvent(
    subjectId: int,
    hadmId: Option<int>,
    stayId: Option<int>,
    itemid: int,
    charttime: Timestamp,
    value: Option<string>,
    valuenum: Option<real>,
    valueuom: Option<string>,
    prov: Provenance)

  datatype DLabItem = DLabItem(
    itemid: int,
    itemLabel: Option<string>,
    fluid: Option<string>,
    category: Option<string>,
    loincCode: Option<string>)

  datatype LabEvent = LabEvent(
    subjectId: int,
    hadmId: Option<int>,
    itemid: int,
    charttime: Timestamp,
    value: Option<string>,
    valueuom: Option<string>,
    refRangeLower: Option<real>,
    refRangeUpper: Option<real>,
    prov: Provenance)

  datatype MicroEvent = MicroEvent(
    subjectId: int,
    hadmId: Option<int>,
    chartdate: Timestamp,
    charttime: Option<Timestamp>,
    specItemid: Option<int>,
    testItemid: Option<int>,
    orgItemid: Option<int>,
    abItemid: Option<int>,
    dilutionComparison: Option<string>,
    dilutionValue: Option<real>,
    interpretation: Option<string>,
    prov: Provenance)

  datatype DMicro = DMicro(
    itemid: int,
    itemLabel: Option<string>,
    category: Option<string>)

  datatype HcpcsEvent = HcpcsEvent(
    subjectId: int,
    hadmId: Option<int>,
    seqNum: Option<int>,
    hcpcsCd: Option<string>,
    shortDescription: Option<string>,
    prov: Provenance)

  datatype ProcedureIcd = ProcedureIcd(
    subjectId: int,
    hadmId: Option<int>,
    icdCode: Option<string>,
    icdVersion: Option<int>,
    prov: Provenance)

  datatype ProcedureEvent = ProcedureEvent(
    subjectId: int,
    hadmId: Option<int>,
    starttime: Timestamp,
    value: Option<real>,
    itemid: int,
    cancelreason: Option<int>,
    prov: Provenance)

  datatype DatetimeEvent = DatetimeEvent(
    subjectId: int,
    hadmId: Option<int>,
    itemid: int,
    value: Timestamp,
    prov: Provenance)

  /** A row of lk_observation_mapped, built by the observation mapper. */
  datatype ObservationMapped = ObservationMapped(
    subjectId: int,
    hadmId: Option<int>,
    startDatetime: Timestamp,
    typeConceptId: int,
    sourceCode: Option<string>,
    sourceConceptId: Option<int>,
    targetDomainId: Option<string>,
    targetConceptId: Option<int>,
    unitId: Option<string>,
    prov: Provenance)

  /** A row of cdm_visit_occurrence as the fact tables join it: its key and its 'subject|hadm' source value. */
  datatype VisitOccurrence = VisitOccurrence(
    visitOccurrenceId: int,
    visitSourceValue: Option<string>)

  datatype ObservationPeriod = ObservationPeriod(
    observationPeriodId: int,
    personId: int)
}
