/**
 * The procedure stages: the clean tables of HCPCS events, ICD procedures and procedure
 * items, the three code lookups, lk_procedure_mapped, and the fan-in of every mapped
 * table's 'Procedure'-domain rows into cdm_procedure_occurrence.
 *
 * The clean tables built with one SELECT and the lookups are functions; the tables the
 * source creates and then appends to with INSERT INTO are fields of ProcedureTables.
 */
module Procedure {
  import opened Sql
  import opened Source
  import opened Vocabulary
  import Person
  import Chartevents
  import MicroMapped
  import Microbiology
  import AdmissionLink
  import MeasurementUnits

  /** OMOP type concept 'EHR billing record'. */
  const BillingRecordType := 32821
  /** OMOP type concept 'EHR order'. */
  const EhrOrderType := 32833

  // ---------------------------------------------------------------------------
  // lk_hcpcsevents_clean and lk_procedures_icd_clean

  /** ON src.hadm_id = adm.hadm_id: an event without an admission joins none. */
  predicate InAdmission(hadmId: Option<int>, adm: Admission)
  {
    SqlEq(hadmId, Some(adm.hadmId))
  }

  datatype HcpcsClean = HcpcsClean(
    subjectId: int,
    hadmId: Option<int>,
    startDatetime: Timestamp,
    seqNum: Option<int>,
    hcpcsCd: Option<string>,
    shortDescription: Option<string>,
    prov: Provenance)

  function HcpcsRow(src: HcpcsEvent, adm: Admission): HcpcsClean
  {
    HcpcsClean(src.subjectId, src.hadmId, adm.dischtime, src.seqNum, src.hcpcsCd, src.shortDescription, src.prov)
  }

  function HcpcsOn(): HcpcsEvent -> Admission -> bool
  {
    (src: HcpcsEvent) => (adm: Admission) => InAdmission(src.hadmId, adm)
  }

  function HcpcsRowAt(): HcpcsEvent -> Admission -> HcpcsClean
  {
    (src: HcpcsEvent) => (adm: Admission) => HcpcsRow(src, adm)
  }

  /** createHcpcsEventsClean: every HCPCS event INNER JOINed with its admission. */
  function HcpcsEventsClean(events: seq<HcpcsEvent>, adms: seq<Admission>): seq<HcpcsClean>
  {
    InnerJoin(events, adms, HcpcsOn(), HcpcsRowAt())
  }

  /**
   * lk_hcpcsevents_clean holds exactly the HCPCS events that have an admission, each dated
   * at that admission's discharge time.
   */
  lemma HcpcsCleanRows(events: seq<HcpcsEvent>, adms: seq<Admission>)
    ensures forall r :: r in HcpcsEventsClean(events, adms) <==>
              exists src, adm :: src in events && adm in adms && src.hadmId == Some(adm.hadmId) &&
                                 r == HcpcsClean(src.subjectId, src.hadmId, adm.dischtime, src.seqNum, src.hcpcsCd,
                                                 src.shortDescription, src.prov)
  {
    InnerJoinMembership(events, adms, HcpcsOn(), HcpcsRowAt());
  }

  datatype IcdClean = IcdClean(
    subjectId: int,
    hadmId: Option<int>,
    startDatetime: Timestamp,
    icdCode: Option<string>,
    icdVersion: Option<int>,
    sourceVocabularyId: string,
    sourceCode: Option<string>,
    prov: Provenance)

  /** The vocabulary of an ICD version: 9 is 'ICD9Proc', 10 is 'ICD10PCS', anything else (NULL too) 'Unknown'. */
  function IcdVocabulary(version: Option<int>): string
  {
    if version == Some(9) then "ICD9Proc" else if version == Some(10) then "ICD10PCS" else "Unknown"
  }

  /** REPLACE(code, '.', ''), NULL for NULL. */
  function WithoutDots(code: Option<string>): (r: Option<string>)
    ensures r.Some? <==> code.Some?
    ensures r.Some? ==> '.' !in r.value && forall ch :: ch in code.value && ch != '.' ==> ch in r.value
  {
    if code.Some? then Some(RemoveChar(code.value, '.')) else None
  }

  function IcdRow(src: ProcedureIcd, adm: Admission): IcdClean
  {
    IcdClean(src.subjectId, src.hadmId, adm.dischtime, src.icdCode, src.icdVersion, IcdVocabulary(src.icdVersion),
             WithoutDots(src.icdCode), src.prov)
  }

  function IcdOn(): ProcedureIcd -> Admission -> bool
  {
    (src: ProcedureIcd) => (adm: Admission) => InAdmission(src.hadmId, adm)
  }

  function IcdRowAt(): ProcedureIcd -> Admission -> IcdClean
  {
    (src: ProcedureIcd) => (adm: Admission) => IcdRow(src, adm)
  }

  /** createProceduresClean: every ICD procedure INNER JOINed with its admission. */
  function ProceduresClean(events: seq<ProcedureIcd>, adms: seq<Admission>): seq<IcdClean>
  {
    InnerJoin(events, adms, IcdOn(), IcdRowAt())
  }

  /**
   * lk_procedures_icd_clean holds exactly the ICD procedures that have an admission, dated at
   * its discharge; the vocabulary follows the ICD version and the source code is the ICD code
   * without its dots.
   */
  lemma ProceduresCleanRows(events: seq<ProcedureIcd>, adms: seq<Admission>)
    ensures forall r :: r in ProceduresClean(events, adms) <==>
              exists src, adm :: src in events && adm in adms && src.hadmId == Some(adm.hadmId) &&
                                 r == IcdRow(src, adm) && r.startDatetime == adm.dischtime
    ensures forall r :: r in ProceduresClean(events, adms) ==>
              (r.icdVersion == Some(9) ==> r.sourceVocabularyId == "ICD9Proc") &&
              (r.icdVersion == Some(10) ==> r.sourceVocabularyId == "ICD10PCS") &&
              (r.icdVersion != Some(9) && r.icdVersion != Some(10) ==> r.sourceVocabularyId == "Unknown") &&
              (r.sourceCode.Some? <==> r.icdCode.Some?) &&
              (r.sourceCode.Some? ==> '.' !in r.sourceCode.value && r.sourceCode.value == RemoveChar(r.icdCode.value, '.'))
  {
    InnerJoinMembership(events, adms, IcdOn(), IcdRowAt());
  }

  // ---------------------------------------------------------------------------
  // lk_proc_d_items_clean

  datatype ProcItemClean = ProcItemClean(
    subjectId: int,
    hadmId: Option<int>,
    startDatetime: Timestamp,
    quantity: Option<real>,
    itemid: int,
    unitId: string,
    prov: Provenance)

  /** src.cancelreason = 0: a NULL reason does not pass. */
  predicate NotCancelled(e: ProcedureEvent)
  {
    e.cancelreason == Some(0)
  }

  function ProcEventRow(e: ProcedureEvent): ProcItemClean
  {
    ProcItemClean(e.subjectId, e.hadmId, e.starttime, e.value, e.itemid, "procedureevents", e.prov)
  }

  /** The CREATE of createProcItemsClean: the procedure events that were not cancelled. */
  function ProcEventItems(events: seq<ProcedureEvent>): seq<ProcItemClean>
  {
    Map(Filter(events, NotCancelled), ProcEventRow)
  }

  /** EXTRACT(YEAR FROM src.value) >= pat.anchor_year - pat.anchor_age - 1, for the patient of the event. */
  predicate PlausibleDatetime(e: DatetimeEvent, pat: Patient)
  {
    pat.subjectId == e.subjectId && YearOf(e.value) >= pat.anchorYear - pat.anchorAge - 1
  }

  function DatetimeRow(e: DatetimeEvent, pat: Patient): ProcItemClean
  {
    ProcItemClean(e.subjectId, e.hadmId, e.value, Some(1.0), e.itemid, "datetimeevents", e.prov)
  }

  function DatetimeOn(): DatetimeEvent -> Patient -> bool
  {
    (e: DatetimeEvent) => (pat: Patient) => PlausibleDatetime(e, pat)
  }

  function DatetimeRowAt(): DatetimeEvent -> Patient -> ProcItemClean
  {
    (e: DatetimeEvent) => (pat: Patient) => DatetimeRow(e, pat)
  }

  /** The INSERT of createProcItemsClean: the datetime events of a recorded patient dated no earlier than a year before birth. */
  function DatetimeItems(events: seq<DatetimeEvent>, patients: seq<Patient>): seq<ProcItemClean>
  {
    InnerJoin(events, patients, DatetimeOn(), DatetimeRowAt())
  }

  /** The procedure-event rows are exactly the uncancelled events, with their own time and value. */
  lemma ProcEventItemsRows(events: seq<ProcedureEvent>)
    ensures forall r :: r in ProcEventItems(events) <==>
              exists e :: e in events && e.cancelreason == Some(0) &&
                          r == ProcItemClean(e.subjectId, e.hadmId, e.starttime, e.value, e.itemid, "procedureevents", e.prov)
  {
    MapMembership(Filter(events, NotCancelled), ProcEventRow);
  }

  /**
   * The datetime-event rows are exactly the events whose year is at least the patient's
   * anchor year less anchor age less one, one per matching patient row, starting at the
   * event's value with quantity 1.
   */
  lemma DatetimeItemsRows(events: seq<DatetimeEvent>, patients: seq<Patient>)
    ensures forall r :: r in DatetimeItems(events, patients) <==>
              exists e, pat :: e in events && pat in patients && pat.subjectId == e.subjectId &&
                               YearOf(e.value) >= pat.anchorYear - pat.anchorAge - 1 &&
                               r == ProcItemClean(e.subjectId, e.hadmId, e.value, Some(1.0), e.itemid, "datetimeevents",
                                                  e.prov)
  {
    InnerJoinMembership(events, patients, DatetimeOn(), DatetimeRowAt());
  }

  // ---------------------------------------------------------------------------
  // lk_hcpcs_concept, lk_icd_proc_concept and lk_itemid_concept

  /** A row of a code lookup: the concept's code as the mapper joins it, and the source concept with its target. */
  datatype ProcConcept = ProcConcept(sourceCode: string, res: Resolution)

  predicate IsHcpcsVocabulary(c: Concept)
  {
    c.vocabularyId == "HCPCS" || c.vocabularyId == "CPT4"
  }

  predicate IsIcdProcVocabulary(c: Concept)
  {
    c.vocabularyId == "ICD9Proc" || c.vocabularyId == "ICD10PCS"
  }

  function ConceptCode(c: Concept): string
  {
    c.conceptCode
  }

  /** REPLACE(vc.concept_code, '.', '') */
  function ConceptCodeWithoutDots(c: Concept): string
  {
    RemoveChar(c.conceptCode, '.')
  }

  function ProcConceptAt(c: Concept, codeOf: Concept -> string): Option<Concept> -> ProcConcept
  {
    (t: Option<Concept>) => ProcConcept(codeOf(c), Resolution(Some(c), t))
  }

  function ProcConceptRowsOf(concepts: seq<Concept>, rels: seq<ConceptRelationship>, codeOf: Concept -> string)
    : Concept -> seq<ProcConcept>
  {
    (c: Concept) => Map(Targets(c, rels, concepts, IsStandardValid), ProcConceptAt(c, codeOf))
  }

  /** A code lookup: the concepts of the chosen vocabularies, each LEFT JOINed with its standard, valid targets. */
  function CodeLookup(concepts: seq<Concept>, rels: seq<ConceptRelationship>, vocabOk: Concept -> bool,
                      codeOf: Concept -> string): seq<ProcConcept>
  {
    FlatMap(Filter(concepts, vocabOk), ProcConceptRowsOf(concepts, rels, codeOf))
  }

  /** createHcpcsConcept */
  function HcpcsConcept(concepts: seq<Concept>, rels: seq<ConceptRelationship>): seq<ProcConcept>
  {
    CodeLookup(concepts, rels, IsHcpcsVocabulary, ConceptCode)
  }

  /** createIcdProcConcept */
  function IcdProcConcept(concepts: seq<Concept>, rels: seq<ConceptRelationship>): seq<ProcConcept>
  {
    CodeLookup(concepts, rels, IsIcdProcVocabulary, ConceptCodeWithoutDots)
  }

  /** What a code lookup row says: a concept of the vocabularies, its code, and a standard, valid target it maps to, if any. */
  ghost predicate CodeLookupRow(lc: ProcConcept, concepts: seq<Concept>, rels: seq<ConceptRelationship>,
                                vocabOk: Concept -> bool, codeOf: Concept -> string)
  {
    lc.res.source.Some? && lc.res.source.value in concepts && vocabOk(lc.res.source.value) &&
    lc.sourceCode == codeOf(lc.res.source.value) &&
    (lc.res.target.Some? ==> lc.res.target.value in concepts && IsStandardValid(lc.res.target.value) &&
                             Reaches(lc.res.source.value, lc.res.target.value, rels))
  }

  lemma CodeLookupRowsOf(concepts: seq<Concept>, rels: seq<ConceptRelationship>, codeOf: Concept -> string, c: Concept)
    ensures forall lc :: lc in ProcConceptRowsOf(concepts, rels, codeOf)(c) <==>
              exists t :: t in Targets(c, rels, concepts, IsStandardValid) && lc == ProcConcept(codeOf(c), Resolution(Some(c), t))
    ensures |ProcConceptRowsOf(concepts, rels, codeOf)(c)| >= 1
  {
    MapMembership(Targets(c, rels, concepts, IsStandardValid), ProcConceptAt(c, codeOf));
    TargetsNonEmpty(c, rels, concepts, IsStandardValid);
  }

  /**
   * A code lookup is sound, loses no concept of its vocabularies, and holds every
   * standard, valid target such a concept maps to.
   */
  lemma CodeLookupRows(concepts: seq<Concept>, rels: seq<ConceptRelationship>, vocabOk: Concept -> bool,
                       codeOf: Concept -> string)
    ensures forall lc :: lc in CodeLookup(concepts, rels, vocabOk, codeOf) ==>
              CodeLookupRow(lc, concepts, rels, vocabOk, codeOf)
    ensures forall c :: c in concepts && vocabOk(c) ==>
              exists lc :: lc in CodeLookup(concepts, rels, vocabOk, codeOf) && lc.res.source == Some(c)
    ensures forall c, t :: c in concepts && vocabOk(c) && t in concepts && IsStandardValid(t) && Reaches(c, t, rels) ==>
              ProcConcept(codeOf(c), Resolution(Some(c), Some(t))) in CodeLookup(concepts, rels, vocabOk, codeOf)
  {
    var f := ProcConceptRowsOf(concepts, rels, codeOf);
    forall lc | lc in CodeLookup(concepts, rels, vocabOk, codeOf) ensures CodeLookupRow(lc, concepts, rels, vocabOk, codeOf) {
      var c :| c in Filter(concepts, vocabOk) && lc in f(c);
      CodeLookupRowsOf(concepts, rels, codeOf, c);
      TargetsSound(c, rels, concepts, IsStandardValid);
    }
    forall c | c in concepts && vocabOk(c)
      ensures exists lc :: lc in CodeLookup(concepts, rels, vocabOk, codeOf) && lc.res.source == Some(c)
    {
      CodeLookupRowsOf(concepts, rels, codeOf, c);
      var lc := f(c)[0];
      assert lc in f(c);
      assert c in Filter(concepts, vocabOk);
    }
    forall c, t | c in concepts && vocabOk(c) && t in concepts && IsStandardValid(t) && Reaches(c, t, rels)
      ensures ProcConcept(codeOf(c), Resolution(Some(c), Some(t))) in CodeLookup(concepts, rels, vocabOk, codeOf)
    {
      CodeLookupRowsOf(concepts, rels, codeOf, c);
      TargetsComplete(c, t, rels, concepts, IsStandardValid);
      assert c in Filter(concepts, vocabOk);
    }
  }

  /** The HCPCS lookup holds only HCPCS and CPT4 concepts under their own codes, with standard, valid targets. */
  lemma HcpcsConceptRows(concepts: seq<Concept>, rels: seq<ConceptRelationship>)
    ensures forall lc :: lc in HcpcsConcept(concepts, rels) ==>
              lc.res.source.Some? && lc.res.source.value in concepts &&
              (lc.res.source.value.vocabularyId == "HCPCS" || lc.res.source.value.vocabularyId == "CPT4") &&
              lc.sourceCode == lc.res.source.value.conceptCode &&
              (lc.res.target.Some? ==> lc.res.target.value in concepts && IsStandardValid(lc.res.target.value) &&
                                       Reaches(lc.res.source.value, lc.res.target.value, rels))
    ensures forall c :: c in concepts && IsHcpcsVocabulary(c) ==>
              exists lc :: lc in HcpcsConcept(concepts, rels) && lc.res.source == Some(c)
  {
    CodeLookupRows(concepts, rels, IsHcpcsVocabulary, ConceptCode);
  }

  /** The ICD lookup holds only ICD9Proc and ICD10PCS concepts, under their codes without dots. */
  lemma IcdProcConceptRows(concepts: seq<Concept>, rels: seq<ConceptRelationship>)
    ensures forall lc :: lc in IcdProcConcept(concepts, rels) ==>
              lc.res.source.Some? && lc.res.source.value in concepts &&
              (lc.res.source.value.vocabularyId == "ICD9Proc" || lc.res.source.value.vocabularyId == "ICD10PCS") &&
              lc.sourceCode == RemoveChar(lc.res.source.value.conceptCode, '.') && '.' !in lc.sourceCode &&
              (lc.res.target.Some? ==> lc.res.target.value in concepts && IsStandardValid(lc.res.target.value) &&
                                       Reaches(lc.res.source.value, lc.res.target.value, rels))
    ensures forall c :: c in concepts && IsIcdProcVocabulary(c) ==>
              exists lc :: lc in IcdProcConcept(concepts, rels) && lc.res.source == Some(c)
  {
    CodeLookupRows(concepts, rels, IsIcdProcVocabulary, ConceptCodeWithoutDots);
  }

  /** A row of lk_itemid_concept: a procedure item with its concept resolution. */
  datatype ItemConcept = ItemConcept(itemid: int, sourceCode: string, sourceLabel: Option<string>, res: Resolution)

  /** d_items.linksto IN ('procedureevents', 'datetimeevents') */
  predicate IsProcedureItem(d: DItem)
  {
    d.linksto == Some("procedureevents") || d.linksto == Some("datetimeevents")
  }

  /** vc.concept_code = CAST(itemid AS TEXT) in one of the two procedure item vocabularies. */
  predicate NamesItem(c: Concept, itemid: int)
  {
    c.conceptCode == IntToText(itemid) &&
    (c.vocabularyId == "mimiciv_proc_itemid" || c.vocabularyId == "mimiciv_proc_datetimeevents")
  }

  function NamesItemOf(itemid: int): Concept -> bool
  {
    (c: Concept) => NamesItem(c, itemid)
  }

  function ItemConceptAt(d: DItem): Resolution -> ItemConcept
  {
    (res: Resolution) => ItemConcept(d.itemid, IntToText(d.itemid), d.itemLabel, res)
  }

  function ItemConceptRowsOf(concepts: seq<Concept>, rels: seq<ConceptRelationship>): DItem -> seq<ItemConcept>
  {
    (d: DItem) => Map(Resolve(concepts, rels, NamesItemOf(d.itemid), IsStandardValid), ItemConceptAt(d))
  }

  /** createItemidConcept */
  function ItemidConcept(items: seq<DItem>, concepts: seq<Concept>, rels: seq<ConceptRelationship>): seq<ItemConcept>
  {
    FlatMap(Filter(items, IsProcedureItem), ItemConceptRowsOf(concepts, rels))
  }

  lemma ItemConceptRowFrom(items: seq<DItem>, concepts: seq<Concept>, rels: seq<ConceptRelationship>, lc: ItemConcept)
    requires lc in ItemidConcept(items, concepts, rels)
    ensures exists d :: d in items && IsProcedureItem(d) && lc.itemid == d.itemid && lc.sourceLabel == d.itemLabel
    ensures lc.sourceCode == IntToText(lc.itemid)
    ensures lc.res.source.Some? ==> lc.res.source.value in concepts && NamesItem(lc.res.source.value, lc.itemid)
    ensures lc.res.target.Some? ==> lc.res.source.Some? && lc.res.target.value in concepts &&
                                    IsStandardValid(lc.res.target.value) &&
                                    Reaches(lc.res.source.value, lc.res.target.value, rels)
  {
    var d :| d in Filter(items, IsProcedureItem) && lc in ItemConceptRowsOf(concepts, rels)(d);
    var rs := Resolve(concepts, rels, NamesItemOf(d.itemid), IsStandardValid);
    MapMembership(rs, ItemConceptAt(d));
    ResolveSound(concepts, rels, NamesItemOf(d.itemid), IsStandardValid);
    var res :| res in rs && lc == ItemConceptAt(d)(res);
  }

  /**
   * The item lookup: every row belongs to a procedure item and names its item's own concept
   * and a standard, valid target of it; every procedure item has a row.
   */
  lemma ItemidConceptRows(items: seq<DItem>, concepts: seq<Concept>, rels: seq<ConceptRelationship>)
    ensures forall lc :: lc in ItemidConcept(items, concepts, rels) ==>
              (exists d :: d in items && IsProcedureItem(d) && lc.itemid == d.itemid && lc.sourceLabel == d.itemLabel) &&
              lc.sourceCode == IntToText(lc.itemid) &&
              (lc.res.source.Some? ==> lc.res.source.value in concepts && NamesItem(lc.res.source.value, lc.itemid)) &&
              (lc.res.target.Some? ==> lc.res.source.Some? && lc.res.target.value in concepts &&
                                       IsStandardValid(lc.res.target.value) &&
                                       Reaches(lc.res.source.value, lc.res.target.value, rels))
    ensures forall d :: d in items && IsProcedureItem(d) ==>
              exists lc :: lc in ItemidConcept(items, concepts, rels) && lc.itemid == d.itemid
  {
    forall lc | lc in ItemidConcept(items, concepts, rels)
      ensures (exists d :: d in items && IsProcedureItem(d) && lc.itemid == d.itemid && lc.sourceLabel == d.itemLabel) &&
              lc.sourceCode == IntToText(lc.itemid) &&
              (lc.res.source.Some? ==> lc.res.source.value in concepts && NamesItem(lc.res.source.value, lc.itemid)) &&
              (lc.res.target.Some? ==> lc.res.source.Some? && lc.res.target.value in concepts &&
                                       IsStandardValid(lc.res.target.value) &&
                                       Reaches(lc.res.source.value, lc.res.target.value, rels))
    {
      ItemConceptRowFrom(items, concepts, rels, lc);
    }
    forall d | d in items && IsProcedureItem(d) ensures exists lc :: lc in ItemidConcept(items, concepts, rels) && lc.itemid == d.itemid {
      ResolveNonEmpty(concepts, rels, NamesItemOf(d.itemid), IsStandardValid);
      var lc := ItemConceptRowsOf(concepts, rels)(d)[0];
      assert lc in ItemConceptRowsOf(concepts, rels)(d);
      assert d in Filter(items, IsProcedureItem);
    }
  }

  // ---------------------------------------------------------------------------
  // lk_procedure_mapped

  datatype ProcedureMapped = ProcedureMapped(
    subjectId: int,
    hadmId: Option<int>,
    startDatetime: Timestamp,
    typeConceptId: int,
    quantity: Option<real>,
    itemid: Option<int>,
    sourceCode: Option<string>,
    sourceLabel: Option<string>,
    sourceVocabularyId: Option<string>,
    sourceDomainId: Option<string>,
    sourceConceptId: int,
    targetDomainId: Option<string>,
    targetConceptId: int,
    unitId: string,
    prov: Provenance)

  /** The chain row a LEFT JOINed lookup row carries: all NULL when the join found none. */
  function ResOf(res: Option<Resolution>): Resolution
  {
    if res.Some? then res.value else Resolution(None, None)
  }

  function LookupResOf(lc: Option<ProcConcept>): Resolution
  {
    if lc.Some? then lc.value.res else Resolution(None, None)
  }

  function ItemResOf(lc: Option<ItemConcept>): Resolution
  {
    if lc.Some? then lc.value.res else Resolution(None, None)
  }

  /** The concept columns of a mapped row: the lookup's, with 0 for an unresolved source or target concept. */
  predicate ConceptColumns(r: ProcedureMapped, res: Resolution)
  {
    r.sourceDomainId == SourceDomainId(res) && r.targetDomainId == TargetDomainId(res) &&
    (res.source.Some? ==> r.sourceConceptId == res.source.value.conceptId) && (res.source.None? ==> r.sourceConceptId == 0) &&
    (res.target.Some? ==> r.targetConceptId == res.target.value.conceptId) && (res.target.None? ==> r.targetConceptId == 0)
  }

  /** ON src.hcpcs_cd = lc.source_code */
  predicate HcpcsJoin(src: HcpcsClean, lc: ProcConcept)
  {
    SqlEq(src.hcpcsCd, Some(lc.sourceCode))
  }

  function HcpcsMappedRow(src: HcpcsClean, lc: Option<ProcConcept>): ProcedureMapped
  {
    var res := LookupResOf(lc);
    ProcedureMapped(src.subjectId, src.hadmId, src.startDatetime, BillingRecordType, Some(1.0), None, src.hcpcsCd, None,
                    SourceVocabularyId(res), SourceDomainId(res), Coalesce(SourceConceptId(res), 0),
                    TargetDomainId(res), Coalesce(TargetConceptId(res), 0), "proc.hcpcsevents", src.prov)
  }

  function HcpcsMappedOn(): HcpcsClean -> ProcConcept -> bool
  {
    (src: HcpcsClean) => (lc: ProcConcept) => HcpcsJoin(src, lc)
  }

  function HcpcsMappedAt(): HcpcsClean -> Option<ProcConcept> -> ProcedureMapped
  {
    (src: HcpcsClean) => (lc: Option<ProcConcept>) => HcpcsMappedRow(src, lc)
  }

  /** The CREATE of createProcedureMapped: HCPCS rows LEFT JOINed with the HCPCS lookup. */
  function HcpcsMapped(clean: seq<HcpcsClean>, lookup: seq<ProcConcept>): seq<ProcedureMapped>
  {
    LeftJoin(clean, lookup, HcpcsMappedOn(), HcpcsMappedAt())
  }

  /** ON src.source_code = lc.source_code AND src.source_vocabulary_id = lc.source_vocabulary_id */
  predicate IcdJoin(src: IcdClean, lc: ProcConcept)
  {
    SqlEq(src.sourceCode, Some(lc.sourceCode)) && SqlEq(Some(src.sourceVocabularyId), SourceVocabularyId(lc.res))
  }

  function IcdMappedRow(src: IcdClean, lc: Option<ProcConcept>): ProcedureMapped
  {
    var res := LookupResOf(lc);
    ProcedureMapped(src.subjectId, src.hadmId, src.startDatetime, BillingRecordType, Some(1.0), None, src.sourceCode,
                    None, Some(src.sourceVocabularyId), SourceDomainId(res), Coalesce(SourceConceptId(res), 0),
                    TargetDomainId(res), Coalesce(TargetConceptId(res), 0), "proc.procedures_icd", src.prov)
  }

  function IcdMappedOn(): IcdClean -> ProcConcept -> bool
  {
    (src: IcdClean) => (lc: ProcConcept) => IcdJoin(src, lc)
  }

  function IcdMappedAt(): IcdClean -> Option<ProcConcept> -> ProcedureMapped
  {
    (src: IcdClean) => (lc: Option<ProcConcept>) => IcdMappedRow(src, lc)
  }

  /** The first INSERT of createProcedureMapped: ICD rows LEFT JOINed with the ICD lookup. */
  function IcdMapped(clean: seq<IcdClean>, lookup: seq<ProcConcept>): seq<ProcedureMapped>
  {
    LeftJoin(clean, lookup, IcdMappedOn(), IcdMappedAt())
  }

  /** ON src.itemid = lc.itemid */
  predicate ItemJoin(src: ProcItemClean, lc: ItemConcept)
  {
    src.itemid == lc.itemid
  }

  function ItemMappedRow(src: ProcItemClean, lc: Option<ItemConcept>): ProcedureMapped
  {
    var res := ItemResOf(lc);
    ProcedureMapped(src.subjectId, src.hadmId, src.startDatetime, EhrOrderType, src.quantity,
                    if lc.Some? then Some(lc.value.itemid) else None, Some(IntToText(src.itemid)),
                    if lc.Some? then lc.value.sourceLabel else None, SourceVocabularyId(res), SourceDomainId(res),
                    Coalesce(SourceConceptId(res), 0), TargetDomainId(res), Coalesce(TargetConceptId(res), 0),
                    "proc." + src.unitId, src.prov)
  }

  function ItemMappedOn(): ProcItemClean -> ItemConcept -> bool
  {
    (src: ProcItemClean) => (lc: ItemConcept) => ItemJoin(src, lc)
  }

  function ItemMappedAt(): ProcItemClean -> Option<ItemConcept> -> ProcedureMapped
  {
    (src: ProcItemClean) => (lc: Option<ItemConcept>) => ItemMappedRow(src, lc)
  }

  /** The second INSERT of createProcedureMapped: procedure item rows LEFT JOINed with the item lookup. */
  function ItemsMapped(clean: seq<ProcItemClean>, lookup: seq<ItemConcept>): seq<ProcedureMapped>
  {
    LeftJoin(clean, lookup, ItemMappedOn(), ItemMappedAt())
  }

  /** The columns an HCPCS mapped row takes from its clean row. */
  predicate HcpcsCopies(r: ProcedureMapped, src: HcpcsClean)
  {
    r.subjectId == src.subjectId && r.hadmId == src.hadmId && r.startDatetime == src.startDatetime &&
    r.typeConceptId == BillingRecordType && r.quantity == Some(1.0) && r.itemid.None? && r.sourceCode == src.hcpcsCd &&
    r.sourceLabel.None? && r.unitId == "proc.hcpcsevents" && r.prov == src.prov
  }

  /** An HCPCS mapped row: its clean row, and the concepts of a lookup row with its code, or zeros when there is none. */
  ghost predicate HcpcsFrom(r: ProcedureMapped, src: HcpcsClean, lookup: seq<ProcConcept>)
  {
    HcpcsCopies(r, src) &&
    ((exists lc :: lc in lookup && src.hcpcsCd == Some(lc.sourceCode) && ConceptColumns(r, lc.res) &&
                   r.sourceVocabularyId == SourceVocabularyId(lc.res)) ||
     ((forall lc :: lc in lookup ==> !HcpcsJoin(src, lc)) && ConceptColumns(r, Resolution(None, None)) &&
      r.sourceVocabularyId.None?))
  }

  /** The HCPCS branch: every row comes from a clean row as above, and every clean row gives one. */
  lemma HcpcsRowFrom(src: HcpcsClean, lookup: seq<ProcConcept>, m: Option<ProcConcept>)
    requires m in LeftMatches(lookup, HcpcsMappedOn()(src))
    ensures HcpcsFrom(HcpcsMappedRow(src, m), src, lookup)
  {
    if m.Some? {
      var lc := m.value;
      assert Some(lc) in LeftMatches(lookup, HcpcsMappedOn()(src));
      assert lc in lookup && src.hcpcsCd == Some(lc.sourceCode);
      assert ConceptColumns(HcpcsMappedRow(src, m), lc.res);
    } else {
      assert forall lc :: lc in lookup ==> !HcpcsJoin(src, lc);
    }
  }

  lemma HcpcsMappedRows(clean: seq<HcpcsClean>, lookup: seq<ProcConcept>)
    ensures forall r :: r in HcpcsMapped(clean, lookup) ==> exists src :: src in clean && HcpcsFrom(r, src, lookup)
    ensures forall src :: src in clean ==> exists r :: r in HcpcsMapped(clean, lookup) && HcpcsFrom(r, src, lookup)
  {
    forall r | r in HcpcsMapped(clean, lookup) ensures exists src :: src in clean && HcpcsFrom(r, src, lookup) {
      var src, m := LeftJoinSource(clean, lookup, HcpcsMappedOn(), HcpcsMappedAt(), r);
      HcpcsRowFrom(src, lookup, m);
    }
    forall src | src in clean ensures exists r :: r in HcpcsMapped(clean, lookup) && HcpcsFrom(r, src, lookup) {
      var m := LeftJoinKeeps(clean, lookup, HcpcsMappedOn(), HcpcsMappedAt(), src);
      HcpcsRowFrom(src, lookup, m);
    }
  }

  predicate IcdCopies(r: ProcedureMapped, src: IcdClean)
  {
    r.subjectId == src.subjectId && r.hadmId == src.hadmId && r.startDatetime == src.startDatetime &&
    r.typeConceptId == BillingRecordType && r.quantity == Some(1.0) && r.itemid.None? && r.sourceCode == src.sourceCode &&
    r.sourceLabel.None? && r.sourceVocabularyId == Some(src.sourceVocabularyId) && r.unitId == "proc.procedures_icd" &&
    r.prov == src.prov
  }

  /** An ICD mapped row: its clean row, and the concepts of a lookup row with its dotless code and vocabulary, or zeros. */
  ghost predicate IcdFrom(r: ProcedureMapped, src: IcdClean, lookup: seq<ProcConcept>)
  {
    IcdCopies(r, src) &&
    ((exists lc :: lc in lookup && src.sourceCode == Some(lc.sourceCode) &&
                   SourceVocabularyId(lc.res) == Some(src.sourceVocabularyId) && ConceptColumns(r, lc.res)) ||
     ((forall lc :: lc in lookup ==> !IcdJoin(src, lc)) && ConceptColumns(r, Resolution(None, None))))
  }

  lemma IcdRowFrom(src: IcdClean, lookup: seq<ProcConcept>, m: Option<ProcConcept>)
    requires m in LeftMatches(lookup, IcdMappedOn()(src))
    ensures IcdFrom(IcdMappedRow(src, m), src, lookup)
  {
    if m.Some? {
      assert Some(m.value) in LeftMatches(lookup, IcdMappedOn()(src));
    }
  }

  lemma IcdMappedRows(clean: seq<IcdClean>, lookup: seq<ProcConcept>)
    ensures forall r :: r in IcdMapped(clean, lookup) ==> exists src :: src in clean && IcdFrom(r, src, lookup)
    ensures forall src :: src in clean ==> exists r :: r in IcdMapped(clean, lookup) && IcdFrom(r, src, lookup)
  {
    forall r | r in IcdMapped(clean, lookup) ensures exists src :: src in clean && IcdFrom(r, src, lookup) {
      var src, m := LeftJoinSource(clean, lookup, IcdMappedOn(), IcdMappedAt(), r);
      IcdRowFrom(src, lookup, m);
    }
    forall src | src in clean ensures exists r :: r in IcdMapped(clean, lookup) && IcdFrom(r, src, lookup) {
      var m := LeftJoinKeeps(clean, lookup, IcdMappedOn(), IcdMappedAt(), src);
      IcdRowFrom(src, lookup, m);
    }
  }

  predicate ItemCopies(r: ProcedureMapped, src: ProcItemClean)
  {
    r.subjectId == src.subjectId && r.hadmId == src.hadmId && r.startDatetime == src.startDatetime &&
    r.typeConceptId == EhrOrderType && r.quantity == src.quantity && r.sourceCode == Some(IntToText(src.itemid)) &&
    r.unitId == "proc." + src.unitId && r.prov == src.prov
  }

  /** An item mapped row: its clean row, and the item, label and concepts of a lookup row of its item, or NULLs and zeros. */
  ghost predicate ItemFrom(r: ProcedureMapped, src: ProcItemClean, lookup: seq<ItemConcept>)
  {
    ItemCopies(r, src) &&
    ((exists lc :: lc in lookup && lc.itemid == src.itemid && r.itemid == Some(src.itemid) &&
                   r.sourceLabel == lc.sourceLabel && r.sourceVocabularyId == SourceVocabularyId(lc.res) &&
                   ConceptColumns(r, lc.res)) ||
     ((forall lc :: lc in lookup ==> lc.itemid != src.itemid) && r.itemid.None? && r.sourceLabel.None? &&
      r.sourceVocabularyId.None? && ConceptColumns(r, Resolution(None, None))))
  }

  lemma ItemRowFrom(src: ProcItemClean, lookup: seq<ItemConcept>, m: Option<ItemConcept>)
    requires m in LeftMatches(lookup, ItemMappedOn()(src))
    ensures ItemFrom(ItemMappedRow(src, m), src, lookup)
  {
    if m.Some? {
      assert Some(m.value) in LeftMatches(lookup, ItemMappedOn()(src));
    }
  }

  lemma ItemsMappedRows(clean: seq<ProcItemClean>, lookup: seq<ItemConcept>)
    ensures forall r :: r in ItemsMapped(clean, lookup) ==> exists src :: src in clean && ItemFrom(r, src, lookup)
    ensures forall src :: src in clean ==> exists r :: r in ItemsMapped(clean, lookup) && ItemFrom(r, src, lookup)
  {
    forall r | r in ItemsMapped(clean, lookup) ensures exists src :: src in clean && ItemFrom(r, src, lookup) {
      var src, m := LeftJoinSource(clean, lookup, ItemMappedOn(), ItemMappedAt(), r);
      ItemRowFrom(src, lookup, m);
    }
    forall src | src in clean ensures exists r :: r in ItemsMapped(clean, lookup) && ItemFrom(r, src, lookup) {
      var m := LeftJoinKeeps(clean, lookup, ItemMappedOn(), ItemMappedAt(), src);
      ItemRowFrom(src, lookup, m);
    }
  }

  /**
   * Matching ignores dots: an ICD procedure joins an ICD lookup concept exactly when the two
   * codes agree once every dot is removed from both and the vocabulary the version selects is
   * the concept's.
   */
  lemma IcdJoinIgnoresDots(events: seq<ProcedureIcd>, adms: seq<Admission>, concepts: seq<Concept>,
                           rels: seq<ConceptRelationship>, src: IcdClean, lc: ProcConcept)
    requires src in ProceduresClean(events, adms) && lc in IcdProcConcept(concepts, rels)
    ensures IcdJoin(src, lc) <==>
              src.icdCode.Some? && RemoveChar(src.icdCode.value, '.') == RemoveChar(lc.res.source.value.conceptCode, '.') &&
              IcdVocabulary(src.icdVersion) == lc.res.source.value.vocabularyId
  {
    ProceduresCleanRow(events, adms, src);
    IcdProcConceptRow(concepts, rels, lc);
  }

  lemma ProceduresCleanRow(events: seq<ProcedureIcd>, adms: seq<Admission>, r: IcdClean)
    requires r in ProceduresClean(events, adms)
    ensures r.icdVersion == Some(9) ==> r.sourceVocabularyId == "ICD9Proc"
    ensures r.icdVersion == Some(10) ==> r.sourceVocabularyId == "ICD10PCS"
    ensures r.icdVersion != Some(9) && r.icdVersion != Some(10) ==> r.sourceVocabularyId == "Unknown"
    ensures r.sourceCode.Some? <==> r.icdCode.Some?
    ensures r.sourceCode.Some? ==> r.sourceCode.value == RemoveChar(r.icdCode.value, '.')
  {
    ProceduresCleanRows(events, adms);
  }

  lemma IcdProcConceptRow(concepts: seq<Concept>, rels: seq<ConceptRelationship>, lc: ProcConcept)
    requires lc in IcdProcConcept(concepts, rels)
    ensures lc.res.source.Some? && (lc.res.source.value.vocabularyId == "ICD9Proc" || lc.res.source.value.vocabularyId == "ICD10PCS")
    ensures lc.sourceCode == RemoveChar(lc.res.source.value.conceptCode, '.')
  {
    IcdProcConceptRows(concepts, rels);
  }

  // ---------------------------------------------------------------------------
  // cdm_procedure_occurrence

  /** CAST(x AS INTEGER) of a FLOAT in PostgreSQL: the nearest integer, a tie going to the even one. */
  function RoundHalfEven(x: real): (n: int)
    ensures -0.5 <= x - n as real <= 0.5
    ensures (x - n as real == 0.5 || x - n as real == -0.5) ==> n % 2 == 0
  {
    var f := x.Floor;
    var d := x - f as real;
    if d < 0.5 then f else if d > 0.5 then f + 1 else if f % 2 == 0 then f else f + 1
  }

  /** The rounding is the only integer with those two properties, so it keeps whole quantities as they are. */
  lemma RoundHalfEvenUnique(x: real, m: int)
    requires -0.5 <= x - m as real <= 0.5
    requires (x - m as real == 0.5 || x - m as real == -0.5) ==> m % 2 == 0
    ensures RoundHalfEven(x) == m
  {
    var n := RoundHalfEven(x);
  }

  /** The mapped tables' rows as cdm_procedure_occurrence reads them. */
  datatype FeedRow = FeedRow(
    subjectId: int,
    visitPart: Option<string>,
    startDatetime: Timestamp,
    typeConceptId: int,
    quantity: Option<int>,
    sourceCode: Option<string>,
    sourceConceptId: Option<int>,
    targetDomainId: Option<string>,
    targetConceptId: Option<int>,
    unitId: Option<string>,
    prov: Provenance)

  function HadmText(hadmId: Option<int>): Option<string>
  {
    if hadmId.Some? then Some(IntToText(hadmId.value)) else None
  }

  /** lk_procedure_mapped: the one feed whose quantity is kept, cast to INTEGER. */
  function ProcFeed(m: ProcedureMapped): FeedRow
  {
    FeedRow(m.subjectId, HadmText(m.hadmId), m.startDatetime, m.typeConceptId,
            if m.quantity.Some? then Some(RoundHalfEven(m.quantity.value)) else None, m.sourceCode,
            Some(m.sourceConceptId), m.targetDomainId, Some(m.targetConceptId), Some(m.unitId), m.prov)
  }

  function ObservationFeed(m: ObservationMapped): FeedRow
  {
    FeedRow(m.subjectId, HadmText(m.hadmId), m.startDatetime, m.typeConceptId, None, m.sourceCode, m.sourceConceptId,
            m.targetDomainId, m.targetConceptId, m.unitId, m.prov)
  }

  /** lk_specimen_mapped: the visit part is COALESCE(hadm_id, date_id) as text. */
  function SpecimenFeed(m: MicroMapped.SpecimenMapped): FeedRow
  {
    FeedRow(m.subjectId, Some(Coalesce(HadmText(m.hadmId), DateText(m.dateId))), m.startDatetime, m.typeConceptId, None,
            Some(m.sourceCode), m.sourceConceptId, Some(m.targetDomainId), m.targetConceptId, Some(m.unitId), m.prov)
  }

  function ChartFeed(m: Chartevents.ChartMapped): FeedRow
  {
    FeedRow(m.subjectId, HadmText(m.hadmId), m.startDatetime, m.typeConceptId, None, Some(m.sourceCode),
            m.sourceConceptId, m.targetDomainId, m.targetConceptId, Some(m.unitId), m.prov)
  }

  /** CONCAT(CAST(subject_id AS TEXT), '|', <visit part>): a NULL part counts as empty. */
  function VisitKey(subjectId: int, visitPart: Option<string>): string
  {
    Concat([Some(IntToText(subjectId)), Some("|"), visitPart])
  }

  datatype ProcedureOccurrence = ProcedureOccurrence(
    personId: int,
    procedureConceptId: Option<int>,
    procedureDate: Date,
    procedureDatetime: Timestamp,
    procedureTypeConceptId: int,
    modifierConceptId: int,
    quantity: Option<int>,
    visitOccurrenceId: int,
    procedureSourceValue: Option<string>,
    procedureSourceConceptId: Option<int>,
    unitId: string,
    prov: Provenance)

  /** WHERE src.target_domain_id = 'Procedure' */
  predicate InProcedureDomain(f: FeedRow)
  {
    f.targetDomainId == Some("Procedure")
  }

  /** ON CAST(src.subject_id AS TEXT) = per.person_source_value */
  predicate PersonJoin(f: FeedRow, per: Person.PersonRow)
  {
    SqlEq(Some(IntToText(f.subjectId)), per.personSourceValue)
  }

  /** ON vis.visit_source_value = the feed row's 'subject|hadm' key */
  predicate VisitJoin(f: FeedRow, vis: VisitOccurrence)
  {
    SqlEq(vis.visitSourceValue, Some(VisitKey(f.subjectId, f.visitPart)))
  }

  datatype FeedPerson = FeedPerson(feed: FeedRow, person: Person.PersonRow)

  function OccurrenceRow(f: FeedRow, per: Person.PersonRow, vis: VisitOccurrence): ProcedureOccurrence
  {
    ProcedureOccurrence(per.personId, f.targetConceptId, DateOf(f.startDatetime), f.startDatetime, f.typeConceptId, 0,
                        f.quantity, vis.visitOccurrenceId, f.sourceCode, f.sourceConceptId,
                        Concat([Some("procedure."), f.unitId]), f.prov)
  }

  function PersonOn(): FeedRow -> Person.PersonRow -> bool
  {
    (f: FeedRow) => (per: Person.PersonRow) => PersonJoin(f, per)
  }

  function FeedPersonAt(): FeedRow -> Person.PersonRow -> FeedPerson
  {
    (f: FeedRow) => (per: Person.PersonRow) => FeedPerson(f, per)
  }

  function VisitOn(): FeedPerson -> VisitOccurrence -> bool
  {
    (fp: FeedPerson) => (vis: VisitOccurrence) => VisitJoin(fp.feed, vis)
  }

  function OccurrenceAt(): FeedPerson -> VisitOccurrence -> ProcedureOccurrence
  {
    (fp: FeedPerson) => (vis: VisitOccurrence) => OccurrenceRow(fp.feed, fp.person, vis)
  }

  function FeedPersons(feed: seq<FeedRow>, persons: seq<Person.PersonRow>): seq<FeedPerson>
  {
    InnerJoin(Filter(feed, InProcedureDomain), persons, PersonOn(), FeedPersonAt())
  }

  /** One INSERT of createProcedureOccurrence: a feed's 'Procedure' rows INNER JOINed with their person and visit. */
  function Occurrences(feed: seq<FeedRow>, persons: seq<Person.PersonRow>, visits: seq<VisitOccurrence>)
    : seq<ProcedureOccurrence>
  {
    InnerJoin(FeedPersons(feed, persons), visits, VisitOn(), OccurrenceAt())
  }

  /** The three conditions a feed row must meet to reach cdm_procedure_occurrence with a given person and visit. */
  predicate OccurrenceJoins(f: FeedRow, per: Person.PersonRow, vis: VisitOccurrence)
  {
    f.targetDomainId == Some("Procedure") && per.personSourceValue == Some(IntToText(f.subjectId)) &&
    vis.visitSourceValue == Some(VisitKey(f.subjectId, f.visitPart))
  }

  /**
   * cdm_procedure_occurrence from one feed: a row for exactly each feed row in the
   * 'Procedure' domain paired with a person whose source value is its subject and a visit
   * whose source value is its 'subject|hadm' key; rows with no such person or visit are dropped.
   */
  lemma OccurrenceRows(feed: seq<FeedRow>, persons: seq<Person.PersonRow>, visits: seq<VisitOccurrence>)
    ensures forall r :: r in Occurrences(feed, persons, visits) <==>
              exists f, per, vis :: f in feed && per in persons && vis in visits && OccurrenceJoins(f, per, vis) &&
                                    r == OccurrenceRow(f, per, vis)
  {
    forall r | r in Occurrences(feed, persons, visits)
      ensures exists f, per, vis :: f in feed && per in persons && vis in visits && OccurrenceJoins(f, per, vis) &&
                                    r == OccurrenceRow(f, per, vis)
    {
      var f, per, vis := OccurrenceSource(feed, persons, visits, r);
    }
    forall f, per, vis | f in feed && per in persons && vis in visits && OccurrenceJoins(f, per, vis)
      ensures OccurrenceRow(f, per, vis) in Occurrences(feed, persons, visits)
    {
      assert f in Filter(feed, InProcedureDomain);
      InnerJoinHas(Filter(feed, InProcedureDomain), persons, PersonOn(), FeedPersonAt(), f, per);
      InnerJoinHas(FeedPersons(feed, persons), visits, VisitOn(), OccurrenceAt(), FeedPerson(f, per), vis);
    }
  }

  /** The feed row, person and visit an occurrence comes from. */
  lemma OccurrenceSource(feed: seq<FeedRow>, persons: seq<Person.PersonRow>, visits: seq<VisitOccurrence>,
                         r: ProcedureOccurrence)
    returns (f: FeedRow, per: Person.PersonRow, vis: VisitOccurrence)
    requires r in Occurrences(feed, persons, visits)
    ensures f in feed && per in persons && vis in visits && OccurrenceJoins(f, per, vis) && r == OccurrenceRow(f, per, vis)
  {
    var fp;
    fp, vis := InnerJoinSource(FeedPersons(feed, persons), visits, VisitOn(), OccurrenceAt(), r);
    f, per := InnerJoinSource(Filter(feed, InProcedureDomain), persons, PersonOn(), FeedPersonAt(), fp);
  }

  /** Every occurrence has modifier 0, a unit id 'procedure.' followed by the feed's, and its feed row's date, type and codes. */
  lemma OccurrenceColumns(feed: seq<FeedRow>, persons: seq<Person.PersonRow>, visits: seq<VisitOccurrence>)
    ensures forall r :: r in Occurrences(feed, persons, visits) ==>
              r.modifierConceptId == 0 && exists f :: f in feed && InProcedureDomain(f) && OccurrenceCopies(r, f)
  {
    forall r | r in Occurrences(feed, persons, visits)
      ensures r.modifierConceptId == 0 && exists f :: f in feed && InProcedureDomain(f) && OccurrenceCopies(r, f)
    {
      var f, per, vis := OccurrenceSource(feed, persons, visits, r);
      OccurrenceRowCopies(f, per, vis);
    }
  }

  /** The columns an occurrence takes from its feed row: unit id 'procedure.' followed by the feed's, date, type and codes. */
  predicate OccurrenceCopies(r: ProcedureOccurrence, f: FeedRow)
  {
    r.unitId == "procedure." + Coalesce(f.unitId, "") && r.procedureConceptId == f.targetConceptId &&
    r.procedureDate == f.startDatetime.date && r.procedureDatetime == f.startDatetime &&
    r.procedureTypeConceptId == f.typeConceptId && r.quantity == f.quantity && r.procedureSourceValue == f.sourceCode &&
    r.procedureSourceConceptId == f.sourceConceptId && r.prov == f.prov
  }

  lemma OccurrenceRowCopies(f: FeedRow, per: Person.PersonRow, vis: VisitOccurrence)
    ensures OccurrenceCopies(OccurrenceRow(f, per, vis), f) && OccurrenceRow(f, per, vis).modifierConceptId == 0
  {
    var parts := [Some("procedure."), f.unitId];
    assert parts[1..][1..] == [];
    assert Concat(parts[1..]) == Coalesce(f.unitId, "");
  }

  /** CAST(i AS TEXT) never holds a '|'. */
  lemma NoBarInIntText(i: int)
    ensures '|' !in IntToText(i)
  {
    if i < 0 {
      assert IntToText(i) == "-" + NatToText(-i);
    }
  }

  lemma VisitKeyText(subjectId: int, visitPart: Option<string>)
    ensures VisitKey(subjectId, visitPart) == IntToText(subjectId) + "|" + Coalesce(visitPart, "")
  {
    var parts := [Some(IntToText(subjectId)), Some("|"), visitPart];
    assert parts[1..][1..][1..] == [];
    assert Concat(parts[1..][1..]) == Coalesce(visitPart, "");
    assert Concat(parts[1..]) == "|" + Coalesce(visitPart, "");
  }

  /** Text without a '|' before a '|' is read back unambiguously. */
  lemma BarSplit(t1: string, t2: string, x1: string, x2: string)
    requires '|' !in t1 && '|' !in t2 && t1 + "|" + x1 == t2 + "|" + x2
    ensures t1 == t2 && x1 == x2
  {
    var k := t1 + "|" + x1;
    assert k[|t1|] == '|' && k[|t2|] == '|';
    assert forall i :: 0 <= i < |t1| ==> k[i] == t1[i];
    assert forall i :: 0 <= i < |t2| ==> k[i] == t2[i];
    assert |t1| == |t2|;
    assert t1 == k[..|t1|] && t2 == k[..|t2|];
    assert x1 == k[|t1| + 1..] && x2 == k[|t2| + 1..];
  }

  /** The 'subject|hadm' key names its subject and its visit part: no two different pairs share a key. */
  lemma VisitKeyDetermines(s1: int, p1: Option<string>, s2: int, p2: Option<string>)
    requires VisitKey(s1, p1) == VisitKey(s2, p2)
    ensures s1 == s2 && Coalesce(p1, "") == Coalesce(p2, "")
  {
    var t1, t2 := IntToText(s1), IntToText(s2);
    var k := VisitKey(s1, p1);
    VisitKeyText(s1, p1);
    VisitKeyText(s2, p2);
    NoBarInIntText(s1);
    NoBarInIntText(s2);
    BarSplit(t1, t2, Coalesce(p1, ""), Coalesce(p2, ""));
    IntToTextInjective(s1, s2);
  }

  /**
   * Joined with cdm_person as the person stage builds it, every occurrence belongs to the
   * patient of its feed row's subject: it carries that patient's person_id.
   */
  lemma OccurrencePersons(feed: seq<FeedRow>, patients: seq<Patient>, subjects: seq<Person.SubjectEthnicity>,
                          lookup: seq<Person.EthnicityConcept>, ids: Patient -> int, visits: seq<VisitOccurrence>)
    ensures forall r :: r in Occurrences(feed, Person.PersonCdm(patients, subjects, lookup, ids), visits) ==>
              exists f, p :: f in feed && InProcedureDomain(f) && p in patients && p.subjectId == f.subjectId &&
                             r.personId == ids(p)
  {
    var persons := Person.PersonCdm(patients, subjects, lookup, ids);
    forall r | r in Occurrences(feed, persons, visits)
      ensures exists f, p :: f in feed && InProcedureDomain(f) && p in patients && p.subjectId == f.subjectId &&
                             r.personId == ids(p)
    {
      var f, per, vis := OccurrenceSource(feed, persons, visits, r);
      var p := Person.PersonCdmSource(patients, subjects, lookup, ids, per);
      IntToTextInjective(p.subjectId, f.subjectId);
    }
  }

  /** A specimen row sent to the 'Procedure' domain has a resolved target, so its procedure concept is never NULL. */
  lemma SpecimenFeedConcepts(specs: seq<Microbiology.SpecimenClean>, mcs: seq<MicroMapped.MicroConcept>,
                             cands: seq<AdmissionLink.HadmCandidate>)
    ensures forall m :: m in MicroMapped.SpecimenMappedRows(specs, mcs, cands) && InProcedureDomain(SpecimenFeed(m)) ==>
              SpecimenFeed(m).targetConceptId.Some?
  {
    MicroMapped.SpecimenMappedTable(specs, mcs, cands);
  }

  /** A chart row sent to the 'Procedure' domain has a resolved target, so its procedure concept is never NULL. */
  lemma ChartFeedConcepts(clean: seq<Chartevents.ChartClean>, conceptRows: seq<Chartevents.ChartConcept>,
                          units: seq<MeasurementUnits.UnitConceptRow>)
    ensures forall m :: m in Chartevents.CharteventsMapped(clean, conceptRows, units) && InProcedureDomain(ChartFeed(m)) ==>
              ChartFeed(m).targetConceptId.Some?
  {
    Chartevents.ChartMappedRows(clean, conceptRows, units);
  }

  // ---------------------------------------------------------------------------
  // The tables the procedure stages fill by appending.

  class ProcedureTables {
    var procItemsClean: seq<ProcItemClean>
    var procedureMapped: seq<ProcedureMapped>
    var procedureOccurrence: seq<ProcedureOccurrence>

    constructor ()
      ensures procItemsClean == [] && procedureMapped == [] && procedureOccurrence == []
    {
      procItemsClean := [];
      procedureMapped := [];
      procedureOccurrence := [];
    }

    /** createProcItemsClean: the uncancelled procedure events, then the plausible datetime events appended. */
    method CreateProcItemsClean(procEvents: seq<ProcedureEvent>, dtEvents: seq<DatetimeEvent>, patients: seq<Patient>)
      modifies this`procItemsClean
      ensures procItemsClean == ProcEventItems(procEvents) + DatetimeItems(dtEvents, patients)
    {
      procItemsClean := ProcEventItems(procEvents);
      procItemsClean := procItemsClean + DatetimeItems(dtEvents, patients);
    }

    /** createProcedureMapped: the HCPCS rows, then the ICD rows and the procedure item rows appended. */
    method CreateProcedureMapped(hcpcs: seq<HcpcsClean>, icd: seq<IcdClean>, hcpcsLookup: seq<ProcConcept>,
                                 icdLookup: seq<ProcConcept>, itemLookup: seq<ItemConcept>)
      modifies this`procedureMapped
      ensures procedureMapped == HcpcsMapped(hcpcs, hcpcsLookup) + IcdMapped(icd, icdLookup) +
                                 ItemsMapped(procItemsClean, itemLookup)
    {
      procedureMapped := HcpcsMapped(hcpcs, hcpcsLookup);
      procedureMapped := procedureMapped + IcdMapped(icd, icdLookup);
      procedureMapped := procedureMapped + ItemsMapped(procItemsClean, itemLookup);
    }

    /** createProcedureOccurrence: an empty table, then the 'Procedure' rows of the four mapped tables appended in turn. */
    method CreateProcedureOccurrence(observations: seq<ObservationMapped>, specimens: seq<MicroMapped.SpecimenMapped>,
                                     charts: seq<Chartevents.ChartMapped>, persons: seq<Person.PersonRow>,
                                     visits: seq<VisitOccurrence>)
      modifies this`procedureOccurrence
      ensures procedureOccurrence == Occurrences(Map(procedureMapped, ProcFeed), persons, visits) +
                                     Occurrences(Map(observations, ObservationFeed), persons, visits) +
                                     Occurrences(Map(specimens, SpecimenFeed), persons, visits) +
                                     Occurrences(Map(charts, ChartFeed), persons, visits)
    {
      var fromProcedures := Occurrences(Map(procedureMapped, ProcFeed), persons, visits);
      var fromObservations := Occurrences(Map(observations, ObservationFeed), persons, visits);
      var fromSpecimens := Occurrences(Map(specimens, SpecimenFeed), persons, visits);
      var fromCharts := Occurrences(Map(charts, ChartFeed), persons, visits);
      procedureOccurrence := fromProcedures;
      procedureOccurrence := procedureOccurrence + fromObservations;
      procedureOccurrence := procedureOccurrence + fromSpecimens;
      procedureOccurrence := procedureOccurrence + fromCharts;
    }

    /** migrateLookup: the clean tables and lookups, then lk_procedure_mapped. */
    method MigrateLookup(hcpcsEvents: seq<HcpcsEvent>, icdEvents: seq<ProcedureIcd>, procEvents: seq<ProcedureEvent>,
                         dtEvents: seq<DatetimeEvent>, adms: seq<Admission>, patients: seq<Patient>, items: seq<DItem>,
                         concepts: seq<Concept>, rels: seq<ConceptRelationship>)
      modifies this`procItemsClean, this`procedureMapped
      ensures procItemsClean == ProcEventItems(procEvents) + DatetimeItems(dtEvents, patients)
      ensures procedureMapped == HcpcsMapped(HcpcsEventsClean(hcpcsEvents, adms), HcpcsConcept(concepts, rels)) +
                                 IcdMapped(ProceduresClean(icdEvents, adms), IcdProcConcept(concepts, rels)) +
                                 ItemsMapped(procItemsClean, ItemidConcept(items, concepts, rels))
    {
      var hcpcs := HcpcsEventsClean(hcpcsEvents, adms);
      var icd := ProceduresClean(icdEvents, adms);
      CreateProcItemsClean(procEvents, dtEvents, patients);
      CreateProcedureMapped(hcpcs, icd, HcpcsConcept(concepts, rels), IcdProcConcept(concepts, rels),
                            ItemidConcept(items, concepts, rels));
    }
  }
}
