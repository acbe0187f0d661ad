/**
 * The labevents mapper: lk_meas_d_labitems_clean (the LOINC-or-local code of
 * each lab item), lk_meas_labevents_clean (the operator and number read from
 * the value, the blank-unit rule), lk_meas_d_labitems_concept,
 * lk_meas_labevents_hadm_id and lk_meas_labevents_mapped.
 *
 * The two REGEXP_MATCHES calls in the select list return one-element text
 * arrays; the model keeps the element. The random measurement_id is left out.
 */
module Labevents {
  import opened Sql
  import opened Source
  import opened Vocabulary
  import opened MeasurementUnits
  import opened Patterns
  import opened AdmissionLink

  // ---------------------------------------------------------------------------
  // lk_meas_d_labitems_clean

  const LoincVocabulary := "LOINC"
  const LabVocabulary := "mimiciv_meas_lab_loinc"

  datatype LabItemClean = LabItemClean(
    itemid: int,
    sourceCode: string,
    loincCode: Option<string>,
    sourceLabel: string,
    sourceVocabularyId: string)

  function CleanItem(d: DLabItem): LabItemClean
  {
    LabItemClean(d.itemid, Coalesce(d.loincCode, IntToText(d.itemid)), d.loincCode,
                 Concat([d.itemLabel, Some("|"), d.fluid, Some("|"), d.category]),
                 if d.loincCode.Some? then LoincVocabulary else LabVocabulary)
  }

  /** createMeasurementsLookupLabeventsClean: one clean row per lab item. */
  function LabItemsClean(items: seq<DLabItem>): seq<LabItemClean>
  {
    Map(items, CleanItem)
  }

  /**
   * The code of a lab item: its LOINC code in 'LOINC' when it has one, otherwise its
   * itemid as text in 'mimiciv_meas_lab_loinc'; and its label keeps both separators
   * whatever parts are NULL.
   */
  lemma LabItemCode(d: DLabItem)
    ensures CleanItem(d).sourceVocabularyId == LoincVocabulary <==> d.loincCode.Some?
    ensures CleanItem(d).sourceVocabularyId == LabVocabulary <==> d.loincCode.None?
    ensures d.loincCode.Some? ==> CleanItem(d).sourceCode == d.loincCode.value
    ensures d.loincCode.None? ==> CleanItem(d).sourceCode == IntToText(d.itemid)
    ensures CleanItem(d).sourceLabel ==
              Coalesce(d.itemLabel, "") + "|" + Coalesce(d.fluid, "") + "|" + Coalesce(d.category, "")
  {
    var l, f, c := Coalesce(d.itemLabel, ""), Coalesce(d.fluid, ""), Coalesce(d.category, "");
    var parts := [d.itemLabel, Some("|"), d.fluid, Some("|"), d.category];
    assert parts[1..][1..][1..][1..][1..] == [];
    assert Concat(parts[1..][1..][1..][1..]) == c + "" == c;
    assert Concat(parts[1..][1..][1..]) == "|" + c;
    assert Concat(parts[1..][1..]) == f + ("|" + c) == f + "|" + c;
    assert Concat(parts[1..]) == "|" + (f + "|" + c) == "|" + f + "|" + c;
    assert Concat(parts) == l + ("|" + f + "|" + c) == l + "|" + f + "|" + c;
  }

  /** Two items in the local vocabulary share a source code only if they are the same itemid. */
  lemma LocalCodesIdentifyItems(d1: DLabItem, d2: DLabItem)
    requires CleanItem(d1).sourceVocabularyId == LabVocabulary && CleanItem(d2).sourceVocabularyId == LabVocabulary
    requires CleanItem(d1).sourceCode == CleanItem(d2).sourceCode
    ensures d1.itemid == d2.itemid
  {
    IntToTextInjective(d1.itemid, d2.itemid);
  }

  /** The clean items are the lab items, one for one and in order. */
  lemma LabItemsCleanRows(items: seq<DLabItem>)
    ensures |LabItemsClean(items)| == |items|
    ensures forall i :: 0 <= i < |items| ==> LabItemsClean(items)[i] == CleanItem(items[i])
    ensures forall r :: r in LabItemsClean(items) <==> exists d :: d in items && r == CleanItem(d)
  {
    MapMembership(items, CleanItem);
  }

  // ---------------------------------------------------------------------------
  // lk_meas_labevents_clean

  datatype LabClean = LabClean(
    subjectId: int,
    startDatetime: Timestamp,
    hadmId: Option<int>,
    itemid: int,
    value: string,
    valueOperator: string,
    valueNumber: Option<string>,
    valueuom: Option<string>,
    refRangeLower: Option<real>,
    refRangeUpper: Option<real>,
    unitId: string,
    prov: Provenance)

  /** CASE WHEN TRIM(valueuom) <> '' THEN valueuom END: a NULL or blank unit becomes NULL. */
  function NonBlank(u: Option<string>): Option<string>
  {
    if u.Some? && Trim(u.value) != "" then u else None
  }

  /**
   * The clean row of an event with value v. In the select list the operator pattern always
   * matches and the number pattern at most once, and PostgreSQL runs the two set-returning
   * calls in lockstep: one row, whose number is NULL when v has no number.
   */
  function CleanEvent(e: LabEvent, v: string): LabClean
  {
    LabClean(e.subjectId, e.charttime, e.hadmId, e.itemid, v, LeadingOperator(v), FirstNumber(v),
             NonBlank(e.valueuom), e.refRangeLower, e.refRangeUpper, "labevents", e.prov)
  }

  predicate SameItem(e: LabEvent, d: DLabItem)
  {
    d.itemid == e.itemid
  }

  function SameItemOf(e: LabEvent): DLabItem -> bool
  {
    (d: DLabItem) => SameItem(e, d)
  }

  function CleanEventOf(e: LabEvent, v: string): DLabItem -> LabClean
  {
    (d: DLabItem) => CleanEvent(e, v)
  }

  /** The rows of one event: one per item it joins, none when its value is NULL (both calls return no row). */
  function LabRowsOf(e: LabEvent, items: seq<DLabItem>): seq<LabClean>
  {
    if e.value.None? then [] else Map(Filter(items, SameItemOf(e)), CleanEventOf(e, e.value.value))
  }

  /** createMeasurementsLabeventsClean: src_labevents INNER JOIN src_d_labitems ON itemid. */
  function LabeventsClean(events: seq<LabEvent>, items: seq<DLabItem>): seq<LabClean>
  {
    FlatMap(events, (e: LabEvent) => LabRowsOf(e, items))
  }

  /** A clean row is an event with a non-NULL value that joins a lab item, and every such event gives one. */
  lemma LabeventsCleanRows(events: seq<LabEvent>, items: seq<DLabItem>)
    ensures forall r :: r in LabeventsClean(events, items) <==>
              exists e, d :: e in events && d in items && SameItem(e, d) && e.value.Some? &&
                             r == CleanEvent(e, e.value.value)
  {
    forall e | e in events && e.value.Some? {
      MapMembership(Filter(items, SameItemOf(e)), CleanEventOf(e, e.value.value));
    }
  }

  /**
   * The columns read from a lab value: the operator is the longest comparison operator
   * that starts the value, or '' when none does; the number is the leftmost number in the
   * value and NULL exactly when the value holds none; the unit is the event's own, made
   * NULL exactly when it is NULL or blank.
   */
  lemma LabValueColumns(e: LabEvent, v: string)
    ensures var r := CleanEvent(e, v);
              IsPrefix(r.valueOperator, v) && (r.valueOperator == "" || r.valueOperator in Operators) &&
              (forall op :: op in Operators && IsPrefix(op, v) ==> |op| <= |r.valueOperator|)
    ensures var r := CleanEvent(e, v);
              (r.valueNumber.None? <==> NoNumberBefore(v, |v|)) &&
              (r.valueNumber.Some? ==> exists k: nat :: k < |v| && NoNumberBefore(v, k) && NumberAt(v, k, r.valueNumber.value))
    ensures var r := CleanEvent(e, v);
              (r.valueuom.None? <==> e.valueuom.None? || forall i :: 0 <= i < |e.valueuom.value| ==> e.valueuom.value[i] == ' ') &&
              (r.valueuom.Some? ==> r.valueuom == e.valueuom)
  {
    FirstNumberLeftmost(v);
    if e.valueuom.Some? {
      TrimEmpty(e.valueuom.value);
    }
  }

  // ---------------------------------------------------------------------------
  // lk_meas_d_labitems_concept

  /** A row of lk_meas_d_labitems_concept: a clean item with one resolution of its code. */
  datatype LabItemConcept = LabItemConcept(item: LabItemClean, res: Resolution)

  function ItemConceptOf(item: LabItemClean): Resolution -> LabItemConcept
  {
    (res: Resolution) => LabItemConcept(item, res)
  }

  function ItemConceptRows(item: LabItemClean, concepts: seq<Concept>, rels: seq<ConceptRelationship>)
    : seq<LabItemConcept>
  {
    Map(Resolve(concepts, rels, CodeMatch(Some(item.sourceCode), item.sourceVocabularyId), IsStandardValid),
        ItemConceptOf(item))
  }

  /** createMeasurementsLookupLabitemsConcept: every clean item through the resolution chain. */
  function LabItemsConcept(itemsClean: seq<LabItemClean>, concepts: seq<Concept>, rels: seq<ConceptRelationship>)
    : seq<LabItemConcept>
  {
    FlatMap(itemsClean, (item: LabItemClean) => ItemConceptRows(item, concepts, rels))
  }

  /**
   * Item resolution: a row's source concept carries the item's code in the item's
   * vocabulary, its target is a standard, valid concept the source maps to, and no item is
   * lost.
   */
  lemma LabItemConceptResolution(itemsClean: seq<LabItemClean>, concepts: seq<Concept>, rels: seq<ConceptRelationship>)
    ensures forall r :: r in LabItemsConcept(itemsClean, concepts, rels) ==>
              r.item in itemsClean &&
              (r.res.source.Some? ==> r.res.source.value in concepts &&
                                      HasCode(r.res.source.value, Some(r.item.sourceCode), r.item.sourceVocabularyId)) &&
              (r.res.target.Some? ==> r.res.source.Some? && r.res.target.value in concepts &&
                                      IsStandardValid(r.res.target.value) &&
                                      Reaches(r.res.source.value, r.res.target.value, rels))
    ensures forall item :: item in itemsClean ==>
              exists r :: r in LabItemsConcept(itemsClean, concepts, rels) && r.item == item
  {
    forall r | r in LabItemsConcept(itemsClean, concepts, rels)
      ensures r.item in itemsClean &&
              (r.res.source.Some? ==> r.res.source.value in concepts &&
                                      HasCode(r.res.source.value, Some(r.item.sourceCode), r.item.sourceVocabularyId)) &&
              (r.res.target.Some? ==> r.res.source.Some? && r.res.target.value in concepts &&
                                      IsStandardValid(r.res.target.value) &&
                                      Reaches(r.res.source.value, r.res.target.value, rels))
    {
      var item :| item in itemsClean && r in ItemConceptRows(item, concepts, rels);
      var sourceOk := CodeMatch(Some(item.sourceCode), item.sourceVocabularyId);
      MapMembership(Resolve(concepts, rels, sourceOk, IsStandardValid), ItemConceptOf(item));
      ResolveSound(concepts, rels, sourceOk, IsStandardValid);
    }
    forall item | item in itemsClean
      ensures exists r :: r in LabItemsConcept(itemsClean, concepts, rels) && r.item == item
    {
      var sourceOk := CodeMatch(Some(item.sourceCode), item.sourceVocabularyId);
      ResolveNonEmpty(concepts, rels, sourceOk, IsStandardValid);
      assert ItemConceptRows(item, concepts, rels)[0].item == item;
    }
  }

  // ---------------------------------------------------------------------------
  // lk_meas_labevents_hadm_id

  function LabKey(r: LabClean): EventKey
  {
    EventKey(r.subjectId, r.hadmId, r.startDatetime, r.prov.traceId)
  }

  /** createMeasurementsLabeventsWithId: the admissions containing each clean row without a hadm_id. */
  function LabHadmCandidates(clean: seq<LabClean>, adms: seq<AdmissionClean>): seq<HadmCandidate>
  {
    HadmCandidates(Map(clean, LabKey), adms)
  }

  /**
   * The admission of a lab row: its own hadm_id when it has one; otherwise an admission of
   * the same subject containing the row's time, with no containing admission starting
   * earlier, and NULL exactly when no admission contains it.
   */
  lemma LabAdmission(clean: seq<LabClean>, adms: seq<AdmissionClean>, src: LabClean)
    requires src in clean && TraceUnique(Map(clean, LabKey), LabKey(src))
    ensures src.hadmId.Some? ==> LinkedHadm(src.hadmId, src.prov.traceId, LabHadmCandidates(clean, adms)) == src.hadmId
    ensures src.hadmId.None? ==>
              var h := LinkedHadm(src.hadmId, src.prov.traceId, LabHadmCandidates(clean, adms));
              (h.None? <==> forall a :: a in adms ==> !Contains(a, LabKey(src))) &&
              (h.Some? ==> exists a :: a in adms && Contains(a, LabKey(src)) && a.hadmId == h.value &&
                                       forall b :: b in adms && Contains(b, LabKey(src)) ==> TsLe(a.startDatetime, b.startDatetime))
  {
    MapMembership(clean, LabKey);
    AdmissionInference(Map(clean, LabKey), adms, LabKey(src));
  }

  // ---------------------------------------------------------------------------
  // lk_meas_labevents_mapped

  datatype LabMapped = LabMapped(
    subjectId: int,
    hadmId: Option<int>,
    dateId: Date,
    startDatetime: Timestamp,
    itemid: int,
    sourceCode: string,
    sourceVocabularyId: string,
    sourceConceptId: Option<int>,
    targetDomainId: string,
    targetConceptId: Option<int>,
    unitSourceValue: Option<string>,
    unitConceptId: Option<int>,
    operatorSourceValue: string,
    operatorConceptId: Option<int>,
    valueSourceValue: string,
    valueAsNumber: Option<string>,
    valueAsConceptId: Option<int>,
    rangeLow: Option<real>,
    rangeHigh: Option<real>,
    unitId: string,
    prov: Provenance)

  function MappedRow(src: LabClean, c: LabItemConcept, o: Option<OperatorRow>, uc: Option<UnitConceptRow>,
                     cands: seq<HadmCandidate>): LabMapped
  {
    LabMapped(src.subjectId, LinkedHadm(src.hadmId, src.prov.traceId, cands), DateOf(src.startDatetime),
              src.startDatetime, src.itemid, IntToText(src.itemid), c.item.sourceVocabularyId,
              SourceConceptId(c.res), Coalesce(TargetDomainId(c.res), "Measurement"), TargetConceptId(c.res),
              src.valueuom, UnitConceptId(src.valueuom, uc), src.valueOperator, OperatorConceptId(o),
              src.value, src.valueNumber, None, src.refRangeLower, src.refRangeUpper,
              "meas." + src.unitId, src.prov)
  }

  /** INNER JOIN lk_meas_d_labitems_concept labc ON labc.itemid = src.itemid */
  predicate ItemConceptFor(c: LabItemConcept, src: LabClean)
  {
    c.item.itemid == src.itemid
  }

  function ItemConceptForOf(src: LabClean): LabItemConcept -> bool
  {
    (c: LabItemConcept) => ItemConceptFor(c, src)
  }

  /** The unit join of one (row, item concept, operator) combination. */
  function RowsForUnit(src: LabClean, c: LabItemConcept, o: Option<OperatorRow>, units: seq<UnitConceptRow>,
                       cands: seq<HadmCandidate>): seq<LabMapped>
  {
    Map(UnitMatches(units, src.valueuom), (uc: Option<UnitConceptRow>) => MappedRow(src, c, o, uc, cands))
  }

  /** The operator join on value_operator[1], then the unit join, of one (row, item concept) combination. */
  function RowsForConcept(src: LabClean, c: LabItemConcept, ops: seq<OperatorRow>, units: seq<UnitConceptRow>,
                          cands: seq<HadmCandidate>): seq<LabMapped>
  {
    FlatMap(OperatorMatches(ops, Some(src.valueOperator)),
            (o: Option<OperatorRow>) => RowsForUnit(src, c, o, units, cands))
  }

  function MappedRowsOf(src: LabClean, conceptRows: seq<LabItemConcept>, ops: seq<OperatorRow>,
                        units: seq<UnitConceptRow>, cands: seq<HadmCandidate>): seq<LabMapped>
  {
    FlatMap(Filter(conceptRows, ItemConceptForOf(src)),
            (c: LabItemConcept) => RowsForConcept(src, c, ops, units, cands))
  }

  /**
   * createMeasurementsLabeventsMapped: each clean row INNER JOINed with its item's concept
   * rows and LEFT JOINed with its operator, its unit and its inferred admission (the
   * candidate numbered 1 for its trace_id).
   */
  function LabeventsMapped(clean: seq<LabClean>, conceptRows: seq<LabItemConcept>, ops: seq<OperatorRow>,
                           units: seq<UnitConceptRow>, cands: seq<HadmCandidate>): seq<LabMapped>
  {
    FlatMap(clean, (src: LabClean) => MappedRowsOf(src, conceptRows, ops, units, cands))
  }

  /** The columns a mapped row copies from its clean row; the source code is the itemid, LOINC or not. */
  predicate MappedCopies(r: LabMapped, src: LabClean, cands: seq<HadmCandidate>)
  {
    r.subjectId == src.subjectId && r.hadmId == LinkedHadm(src.hadmId, src.prov.traceId, cands) &&
    r.dateId == src.startDatetime.date && r.startDatetime == src.startDatetime && r.itemid == src.itemid &&
    r.sourceCode == IntToText(src.itemid) && r.unitSourceValue == src.valueuom &&
    r.operatorSourceValue == src.valueOperator && r.valueSourceValue == src.value &&
    r.valueAsNumber == src.valueNumber && r.valueAsConceptId.None? &&
    r.rangeLow == src.refRangeLower && r.rangeHigh == src.refRangeUpper &&
    r.unitId == "meas." + src.unitId && r.prov == src.prov
  }

  /** The concept columns come from one concept row of the row's item; a NULL target domain reads 'Measurement'. */
  ghost predicate MappedConcept(r: LabMapped, src: LabClean, conceptRows: seq<LabItemConcept>)
  {
    exists c :: c in conceptRows && ItemConceptFor(c, src) &&
      r.sourceVocabularyId == c.item.sourceVocabularyId && r.sourceConceptId == SourceConceptId(c.res) &&
      r.targetConceptId == TargetConceptId(c.res) &&
      r.targetDomainId == Coalesce(TargetDomainId(c.res), "Measurement")
  }

  /** operator_concept_id: the target of an operator concept named by the row's operator, NULL exactly when there is none. */
  ghost predicate MappedOperator(r: LabMapped, src: LabClean, ops: seq<OperatorRow>)
  {
    (r.operatorConceptId.None? <==> forall o :: o in ops ==> o.sourceCode != src.valueOperator) &&
    (r.operatorConceptId.Some? ==>
       exists o :: o in ops && o.sourceCode == src.valueOperator && r.operatorConceptId == Some(o.targetConceptId))
  }

  /**
   * unit_concept_id: set exactly when there is a unit, to the target of a unit it names, or 0
   * when it names no unit or a named one has no target (or the target 0).
   */
  ghost predicate MappedUnit(r: LabMapped, src: LabClean, units: seq<UnitConceptRow>)
  {
    (r.unitConceptId.Some? <==> src.valueuom.Some?) &&
    (r.unitConceptId.Some? && r.unitConceptId != Some(0) ==>
       exists u :: u in units && UnitNamed(u, src.valueuom) && u.targetConceptId == r.unitConceptId) &&
    (r.unitConceptId == Some(0) ==>
       (forall u :: u in units ==> !UnitNamed(u, src.valueuom)) ||
       exists u :: u in units && UnitNamed(u, src.valueuom) &&
                   (u.targetConceptId.None? || u.targetConceptId == Some(0)))
  }

  ghost predicate MappedFrom(r: LabMapped, src: LabClean, conceptRows: seq<LabItemConcept>, ops: seq<OperatorRow>,
                             units: seq<UnitConceptRow>, cands: seq<HadmCandidate>)
  {
    MappedCopies(r, src, cands) && MappedConcept(r, src, conceptRows) && MappedOperator(r, src, ops) &&
    MappedUnit(r, src, units)
  }

  lemma MappedOperatorFrom(src: LabClean, ops: seq<OperatorRow>, o: Option<OperatorRow>, row: LabMapped)
    requires o in OperatorMatches(ops, Some(src.valueOperator))
    requires row.operatorConceptId == OperatorConceptId(o)
    ensures MappedOperator(row, src, ops)
  {
    if o.Some? {
      assert Some(o.value) in OperatorMatches(ops, Some(src.valueOperator));
    } else {
      assert None in OperatorMatches(ops, Some(src.valueOperator));
    }
  }

  lemma MappedUnitFrom(src: LabClean, units: seq<UnitConceptRow>, uc: Option<UnitConceptRow>, row: LabMapped)
    requires uc in UnitMatches(units, src.valueuom)
    requires row.unitConceptId == UnitConceptId(src.valueuom, uc)
    ensures MappedUnit(row, src, units)
  {
    if uc.Some? {
      assert Some(uc.value) in UnitMatches(units, src.valueuom);
    }
  }

  lemma MappedRowFrom(src: LabClean, conceptRows: seq<LabItemConcept>, ops: seq<OperatorRow>, units: seq<UnitConceptRow>,
                      cands: seq<HadmCandidate>, c: LabItemConcept, o: Option<OperatorRow>, uc: Option<UnitConceptRow>)
    requires c in conceptRows && ItemConceptFor(c, src)
    requires o in OperatorMatches(ops, Some(src.valueOperator))
    requires uc in UnitMatches(units, src.valueuom)
    ensures MappedFrom(MappedRow(src, c, o, uc, cands), src, conceptRows, ops, units, cands)
  {
    var row := MappedRow(src, c, o, uc, cands);
    assert MappedCopies(row, src, cands);
    assert MappedConcept(row, src, conceptRows) by {
      assert row.sourceVocabularyId == c.item.sourceVocabularyId && row.sourceConceptId == SourceConceptId(c.res) &&
             row.targetConceptId == TargetConceptId(c.res) &&
             row.targetDomainId == Coalesce(TargetDomainId(c.res), "Measurement");
    }
    assert MappedOperator(row, src, ops) by {
      MappedOperatorFrom(src, ops, o, row);
    }
    assert MappedUnit(row, src, units) by {
      MappedUnitFrom(src, units, uc, row);
    }
  }

  lemma RowsForUnitFrom(src: LabClean, conceptRows: seq<LabItemConcept>, ops: seq<OperatorRow>,
                        units: seq<UnitConceptRow>, cands: seq<HadmCandidate>, c: LabItemConcept, o: Option<OperatorRow>)
    requires c in conceptRows && ItemConceptFor(c, src)
    requires o in OperatorMatches(ops, Some(src.valueOperator))
    ensures forall r :: r in RowsForUnit(src, c, o, units, cands) ==> MappedFrom(r, src, conceptRows, ops, units, cands)
  {
    forall r | r in RowsForUnit(src, c, o, units, cands) ensures MappedFrom(r, src, conceptRows, ops, units, cands) {
      var i :| 0 <= i < |RowsForUnit(src, c, o, units, cands)| && RowsForUnit(src, c, o, units, cands)[i] == r;
      MappedRowFrom(src, conceptRows, ops, units, cands, c, o, UnitMatches(units, src.valueuom)[i]);
    }
  }

  lemma RowsForConceptFrom(src: LabClean, conceptRows: seq<LabItemConcept>, ops: seq<OperatorRow>,
                           units: seq<UnitConceptRow>, cands: seq<HadmCandidate>, c: LabItemConcept)
    requires c in conceptRows && ItemConceptFor(c, src)
    ensures forall r :: r in RowsForConcept(src, c, ops, units, cands) ==> MappedFrom(r, src, conceptRows, ops, units, cands)
  {
    forall r | r in RowsForConcept(src, c, ops, units, cands) ensures MappedFrom(r, src, conceptRows, ops, units, cands) {
      var o :| o in OperatorMatches(ops, Some(src.valueOperator)) && r in RowsForUnit(src, c, o, units, cands);
      RowsForUnitFrom(src, conceptRows, ops, units, cands, c, o);
    }
  }

  lemma MappedRowsOfFrom(src: LabClean, conceptRows: seq<LabItemConcept>, ops: seq<OperatorRow>,
                         units: seq<UnitConceptRow>, cands: seq<HadmCandidate>)
    ensures forall r :: r in MappedRowsOf(src, conceptRows, ops, units, cands) ==>
              MappedFrom(r, src, conceptRows, ops, units, cands)
  {
    forall r | r in MappedRowsOf(src, conceptRows, ops, units, cands)
      ensures MappedFrom(r, src, conceptRows, ops, units, cands)
    {
      var c :| c in Filter(conceptRows, ItemConceptForOf(src)) && r in RowsForConcept(src, c, ops, units, cands);
      RowsForConceptFrom(src, conceptRows, ops, units, cands, c);
    }
  }

  /**
   * Every mapped row comes from a clean row: it copies the row's identity, value, operator,
   * number and unit columns, takes source_code from the itemid, the inferred admission for
   * hadm_id, its concepts from a concept row of its item, and its operator and unit concepts
   * from the matching joins; value_as_concept_id is always NULL.
   */
  lemma LabMappedRows(clean: seq<LabClean>, conceptRows: seq<LabItemConcept>, ops: seq<OperatorRow>,
                      units: seq<UnitConceptRow>, cands: seq<HadmCandidate>)
    ensures forall r :: r in LabeventsMapped(clean, conceptRows, ops, units, cands) ==>
              exists src :: src in clean && MappedFrom(r, src, conceptRows, ops, units, cands)
  {
    forall r | r in LabeventsMapped(clean, conceptRows, ops, units, cands)
      ensures exists src :: src in clean && MappedFrom(r, src, conceptRows, ops, units, cands)
    {
      var src :| src in clean && r in MappedRowsOf(src, conceptRows, ops, units, cands);
      MappedRowsOfFrom(src, conceptRows, ops, units, cands);
    }
  }

  /** A clean row whose item has a concept row is not lost: the operator and unit joins are LEFT JOINs. */
  lemma LabMappedKeepsRow(src: LabClean, conceptRows: seq<LabItemConcept>, ops: seq<OperatorRow>,
                          units: seq<UnitConceptRow>, cands: seq<HadmCandidate>, c: LabItemConcept)
    requires c in conceptRows && ItemConceptFor(c, src)
    ensures exists r :: r in MappedRowsOf(src, conceptRows, ops, units, cands) &&
                        MappedFrom(r, src, conceptRows, ops, units, cands)
  {
    var o := OperatorMatches(ops, Some(src.valueOperator))[0];
    var uc := UnitMatches(units, src.valueuom)[0];
    var r := MappedRow(src, c, o, uc, cands);
    MappedRowFrom(src, conceptRows, ops, units, cands, c, o, uc);
    assert r == RowsForUnit(src, c, o, units, cands)[0];
    assert r in RowsForConcept(src, c, ops, units, cands);
    assert c in Filter(conceptRows, ItemConceptForOf(src));
  }

  /** An event with a non-NULL value that joins an item has its clean row. */
  lemma CleanRowOfEvent(events: seq<LabEvent>, items: seq<DLabItem>, e: LabEvent, d: DLabItem)
    requires e in events && d in items && SameItem(e, d) && e.value.Some?
    ensures CleanEvent(e, e.value.value) in LabeventsClean(events, items)
  {
    assert d in Filter(items, SameItemOf(e));
    MapMembership(Filter(items, SameItemOf(e)), CleanEventOf(e, e.value.value));
    assert CleanEvent(e, e.value.value) in LabRowsOf(e, items);
  }

  /** Every lab item has a concept row. */
  lemma ConceptRowOfItem(items: seq<DLabItem>, concepts: seq<Concept>, rels: seq<ConceptRelationship>, d: DLabItem)
    requires d in items
    ensures exists c :: c in LabItemsConcept(LabItemsClean(items), concepts, rels) && c.item == CleanItem(d)
  {
    var item := CleanItem(d);
    MapMembership(items, CleanItem);
    assert item in LabItemsClean(items);
    var sourceOk := CodeMatch(Some(item.sourceCode), item.sourceVocabularyId);
    ResolveNonEmpty(concepts, rels, sourceOk, IsStandardValid);
    var c := ItemConceptRows(item, concepts, rels)[0];
    assert c.item == item;
    assert c in LabItemsConcept(LabItemsClean(items), concepts, rels);
  }

  /**
   * Through the whole lab pipeline no event is lost: an event with a non-NULL value whose
   * item is in d_labitems reaches lk_meas_labevents_mapped, as a row built from its clean row.
   */
  lemma LabPipelineKeepsEvents(events: seq<LabEvent>, items: seq<DLabItem>, concepts: seq<Concept>,
                               rels: seq<ConceptRelationship>, ops: seq<OperatorRow>, units: seq<UnitConceptRow>,
                               cands: seq<HadmCandidate>, e: LabEvent, d: DLabItem)
    requires e in events && d in items && SameItem(e, d) && e.value.Some?
    ensures var clean := LabeventsClean(events, items);
            var conceptRows := LabItemsConcept(LabItemsClean(items), concepts, rels);
            CleanEvent(e, e.value.value) in clean &&
            exists r :: r in LabeventsMapped(clean, conceptRows, ops, units, cands) &&
                        MappedFrom(r, CleanEvent(e, e.value.value), conceptRows, ops, units, cands)
  {
    var clean := LabeventsClean(events, items);
    var conceptRows := LabItemsConcept(LabItemsClean(items), concepts, rels);
    var src := CleanEvent(e, e.value.value);
    CleanRowOfEvent(events, items, e, d);
    ConceptRowOfItem(items, concepts, rels, d);
    var c :| c in conceptRows && c.item == CleanItem(d);
    LabMappedKeepsRow(src, conceptRows, ops, units, cands, c);
    var r :| r in MappedRowsOf(src, conceptRows, ops, units, cands) && MappedFrom(r, src, conceptRows, ops, units, cands);
    assert r in LabeventsMapped(clean, conceptRows, ops, units, cands);
  }
}
