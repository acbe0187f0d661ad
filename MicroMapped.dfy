/**
 * The microbiology lookup and the three mapped microbiology tables: lk_d_micro_clean
 * (d_micro plus one row per distinct antibiotic interpretation), lk_d_micro_concept (the
 * resolution chain over it), and lk_specimen_mapped, lk_meas_organism_mapped and
 * lk_meas_ab_mapped, which join the clean microbiology tables with that lookup and with
 * the inferred admissions of lk_micro_hadm_id.
 *
 * The random specimen_id / measurement_id columns are not modelled.
 */
module MicroMapped {
  import opened Sql
  import opened Source
  import opened Vocabulary
  import opened MeasurementUnits
  import opened AdmissionLink
  import opened Microbiology

  const MicroVocabularyPrefix := "mimiciv_micro_"
  const ResistanceVocabulary := "mimiciv_micro_resistance"
  /** type_concept_id 32856, 'Lab', of every mapped microbiology row. */
  const LabTypeConcept := 32856

  // ---------------------------------------------------------------------------
  // lk_d_micro_clean

  datatype MicroItem = MicroItem(
    itemid: Option<int>,
    sourceCode: string,
    sourceLabel: Option<string>,
    sourceVocabularyId: string)

  function LowerOrNull(s: Option<string>): Option<string>
  {
    if s.Some? then Some(Lower(s.value)) else None
  }

  /** A d_micro row: its itemid as text, its label, and its category lower-cased after the vocabulary prefix. */
  function DictionaryItem(d: DMicro): MicroItem
  {
    MicroItem(Some(d.itemid), IntToText(d.itemid), d.itemLabel,
              Concat([Some(MicroVocabularyPrefix), LowerOrNull(d.category)]))
  }

  /** An antibiotic interpretation as a code of the resistance vocabulary, labelled by itself. */
  function ResistanceItem(interpretation: string): MicroItem
  {
    MicroItem(None, interpretation, Some(interpretation), ResistanceVocabulary)
  }

  function ResistanceItemsOf(r: AbClean): seq<MicroItem>
  {
    if r.interpretation.Some? then [ResistanceItem(r.interpretation.value)] else []
  }

  /** createMicroLookupClean: d_micro UNION ALL the distinct non-NULL interpretations of lk_meas_ab_clean. */
  function MicroLookupClean(dms: seq<DMicro>, abRows: seq<AbClean>): seq<MicroItem>
  {
    Map(dms, DictionaryItem) + Distinct(FlatMap(abRows, ResistanceItemsOf))
  }

  /**
   * The columns of a d_micro lookup row: the source code is the itemid as text, and the
   * vocabulary is 'mimiciv_micro_' followed by the lower-cased category, or the bare prefix
   * when the category is NULL (CONCAT skips a NULL).
   */
  lemma DictionaryItemColumns(d: DMicro)
    ensures DictionaryItem(d).itemid == Some(d.itemid)
    ensures DictionaryItem(d).sourceCode == IntToText(d.itemid)
    ensures DictionaryItem(d).sourceLabel == d.itemLabel
    ensures d.category.Some? ==> DictionaryItem(d).sourceVocabularyId == MicroVocabularyPrefix + Lower(d.category.value)
    ensures d.category.None? ==> DictionaryItem(d).sourceVocabularyId == MicroVocabularyPrefix
  {
    var parts := [Some(MicroVocabularyPrefix), LowerOrNull(d.category)];
    assert parts[1..][1..] == [];
    assert Concat(parts) == MicroVocabularyPrefix + Concat(parts[1..]);
    assert Concat(parts[1..]) == Coalesce(LowerOrNull(d.category), "");
  }

  /** The source code of a d_micro lookup row identifies its item. */
  lemma DictionaryCodesIdentify(d1: DMicro, d2: DMicro)
    ensures DictionaryItem(d1).sourceCode == DictionaryItem(d2).sourceCode <==> d1.itemid == d2.itemid
  {
    if DictionaryItem(d1).sourceCode == DictionaryItem(d2).sourceCode {
      IntToTextInjective(d1.itemid, d2.itemid);
    }
  }

  lemma ResistanceItemsMembership(abRows: seq<AbClean>)
    ensures forall it :: it in Distinct(FlatMap(abRows, ResistanceItemsOf)) <==>
              exists r :: r in abRows && r.interpretation.Some? && it == ResistanceItem(r.interpretation.value)
  {
    forall it ensures it in FlatMap(abRows, ResistanceItemsOf) <==>
                      exists r :: r in abRows && r.interpretation.Some? && it == ResistanceItem(r.interpretation.value)
    {
      if it in FlatMap(abRows, ResistanceItemsOf) {
        var r :| r in abRows && it in ResistanceItemsOf(r);
      }
      if exists r :: r in abRows && r.interpretation.Some? && it == ResistanceItem(r.interpretation.value) {
        var r :| r in abRows && r.interpretation.Some? && it == ResistanceItem(r.interpretation.value);
        assert it in ResistanceItemsOf(r);
      }
    }
  }

  /**
   * lk_d_micro_clean: first one row per d_micro row, the only rows with an itemid; then one
   * row of the resistance vocabulary per distinct non-NULL interpretation of the antibiotic
   * rows, no two with the same code.
   */
  lemma MicroLookupCleanRows(dms: seq<DMicro>, abRows: seq<AbClean>)
    ensures var rows := MicroLookupClean(dms, abRows);
            |rows| >= |dms| &&
            (forall i :: 0 <= i < |dms| ==> rows[i] == DictionaryItem(dms[i])) &&
            (forall i :: 0 <= i < |rows| ==> (rows[i].itemid.None? <==> i >= |dms|)) &&
            (forall i, j :: |dms| <= i < j < |rows| ==> rows[i].sourceCode != rows[j].sourceCode)
    ensures forall it :: it in MicroLookupClean(dms, abRows) <==>
              (exists d :: d in dms && it == DictionaryItem(d)) ||
              (exists r :: r in abRows && r.interpretation.Some? && it == ResistanceItem(r.interpretation.value))
  {
    var dict := Map(dms, DictionaryItem);
    var res := Distinct(FlatMap(abRows, ResistanceItemsOf));
    var rows := dict + res;
    ResistanceItemsMembership(abRows);
    MapMembership(dms, DictionaryItem);
    forall i | |dms| <= i < |rows| ensures rows[i] == res[i - |dms|] && rows[i].itemid.None? {
      assert res[i - |dms|] in res;
    }
    forall i, j | |dms| <= i < j < |rows| ensures rows[i].sourceCode != rows[j].sourceCode {
      assert res[i - |dms|] in res && res[j - |dms|] in res;
      assert res[i - |dms|] != res[j - |dms|];
    }
  }

  // ---------------------------------------------------------------------------
  // lk_d_micro_concept

  datatype MicroConcept = MicroConcept(item: MicroItem, res: Resolution)

  function MicroConceptOf(item: MicroItem): Resolution -> MicroConcept
  {
    (res: Resolution) => MicroConcept(item, res)
  }

  function MicroConceptRows(item: MicroItem, concepts: seq<Concept>, rels: seq<ConceptRelationship>)
    : seq<MicroConcept>
  {
    Map(Resolve(concepts, rels, CodeMatch(Some(item.sourceCode), item.sourceVocabularyId), IsStandardValid),
        MicroConceptOf(item))
  }

  /** createMicroLookupConcept: every lookup row through the resolution chain, matching its code in its vocabulary. */
  function MicroLookupConcept(items: seq<MicroItem>, concepts: seq<Concept>, rels: seq<ConceptRelationship>)
    : seq<MicroConcept>
  {
    FlatMap(items, (item: MicroItem) => MicroConceptRows(item, concepts, rels))
  }

  lemma MicroConceptRowFrom(items: seq<MicroItem>, concepts: seq<Concept>, rels: seq<ConceptRelationship>, c: MicroConcept)
    requires c in MicroLookupConcept(items, concepts, rels)
    ensures c.item in items
    ensures c.res.source.Some? ==> c.res.source.value in concepts &&
                                   HasCode(c.res.source.value, Some(c.item.sourceCode), c.item.sourceVocabularyId)
    ensures c.res.target.Some? ==> c.res.source.Some? && c.res.target.value in concepts &&
                                   IsStandardValid(c.res.target.value) &&
                                   Reaches(c.res.source.value, c.res.target.value, rels)
  {
    var item :| item in items && c in MicroConceptRows(item, concepts, rels);
    var sourceOk := CodeMatch(Some(item.sourceCode), item.sourceVocabularyId);
    MapMembership(Resolve(concepts, rels, sourceOk, IsStandardValid), MicroConceptOf(item));
    ResolveSound(concepts, rels, sourceOk, IsStandardValid);
  }

  lemma MicroConceptRowOfItem(items: seq<MicroItem>, concepts: seq<Concept>, rels: seq<ConceptRelationship>,
                              item: MicroItem)
    requires item in items
    ensures exists c :: c in MicroLookupConcept(items, concepts, rels) && c.item == item
  {
    var sourceOk := CodeMatch(Some(item.sourceCode), item.sourceVocabularyId);
    ResolveNonEmpty(concepts, rels, sourceOk, IsStandardValid);
    assert MicroConceptRows(item, concepts, rels)[0].item == item;
  }

  /**
   * Lookup resolution: a row's source concept carries the item's code in the item's
   * vocabulary, its target is a standard, valid concept the source maps to, and no lookup
   * row is lost by the LEFT JOINs.
   */
  lemma MicroConceptResolution(items: seq<MicroItem>, concepts: seq<Concept>, rels: seq<ConceptRelationship>)
    ensures forall c :: c in MicroLookupConcept(items, concepts, rels) ==>
              c.item in items &&
              (c.res.source.Some? ==> c.res.source.value in concepts &&
                                      HasCode(c.res.source.value, Some(c.item.sourceCode), c.item.sourceVocabularyId)) &&
              (c.res.target.Some? ==> c.res.source.Some? && c.res.target.value in concepts &&
                                      IsStandardValid(c.res.target.value) &&
                                      Reaches(c.res.source.value, c.res.target.value, rels))
    ensures forall item :: item in items ==>
              exists c :: c in MicroLookupConcept(items, concepts, rels) && c.item == item
  {
    forall c | c in MicroLookupConcept(items, concepts, rels)
      ensures c.item in items &&
              (c.res.source.Some? ==> c.res.source.value in concepts &&
                                      HasCode(c.res.source.value, Some(c.item.sourceCode), c.item.sourceVocabularyId)) &&
              (c.res.target.Some? ==> c.res.source.Some? && c.res.target.value in concepts &&
                                      IsStandardValid(c.res.target.value) &&
                                      Reaches(c.res.source.value, c.res.target.value, rels))
    {
      MicroConceptRowFrom(items, concepts, rels, c);
    }
    forall item | item in items ensures exists c :: c in MicroLookupConcept(items, concepts, rels) && c.item == item {
      MicroConceptRowOfItem(items, concepts, rels, item);
    }
  }

  /** ON src.<x>_itemid = mc.itemid: a NULL on either side never joins, so no resistance row joins an item. */
  predicate ForItem(c: MicroConcept, itemid: Option<int>)
  {
    SqlEq(c.item.itemid, itemid)
  }

  function ForItemOf(itemid: Option<int>): MicroConcept -> bool
  {
    (c: MicroConcept) => ForItem(c, itemid)
  }

  // ---------------------------------------------------------------------------
  // lk_specimen_mapped

  datatype SpecimenMapped = SpecimenMapped(
    subjectId: int,
    hadmId: Option<int>,
    dateId: Date,
    typeConceptId: int,
    startDatetime: Timestamp,
    specItemid: Option<int>,
    sourceCode: string,
    sourceVocabularyId: string,
    sourceConceptId: Option<int>,
    targetDomainId: string,
    targetConceptId: Option<int>,
    unitId: string,
    prov: Provenance)

  function SpecimenMappedRow(src: SpecimenClean, mc: MicroConcept, cands: seq<HadmCandidate>): SpecimenMapped
  {
    SpecimenMapped(src.subjectId, LinkedHadm(src.hadmId, src.prov.traceId, cands), DateOf(src.startDatetime),
                   LabTypeConcept, src.startDatetime, src.specItemid, mc.item.sourceCode, mc.item.sourceVocabularyId,
                   SourceConceptId(mc.res), Coalesce(TargetDomainId(mc.res), "Specimen"), TargetConceptId(mc.res),
                   src.unitId, src.prov)
  }

  function SpecimenMappedAt(src: SpecimenClean, cands: seq<HadmCandidate>): MicroConcept -> SpecimenMapped
  {
    (mc: MicroConcept) => SpecimenMappedRow(src, mc, cands)
  }

  function SpecimenMappedOf(src: SpecimenClean, mcs: seq<MicroConcept>, cands: seq<HadmCandidate>): seq<SpecimenMapped>
  {
    Map(Filter(mcs, ForItemOf(src.specItemid)), SpecimenMappedAt(src, cands))
  }

  /**
   * createSpecimenMapped: each specimen row INNER JOINed with the lookup rows of its
   * specimen item and LEFT JOINed with its inferred admission.
   */
  function SpecimenMappedRows(specs: seq<SpecimenClean>, mcs: seq<MicroConcept>, cands: seq<HadmCandidate>)
    : seq<SpecimenMapped>
  {
    FlatMap(specs, (src: SpecimenClean) => SpecimenMappedOf(src, mcs, cands))
  }

  /**
   * What a specimen row and a lookup row of its item give: the row's identity, time and
   * provenance, its own or its inferred admission, the date of its start, type 'Lab', and
   * the lookup row's code and concepts, the target domain 'Specimen' when unresolved.
   */
  predicate SpecimenFrom(r: SpecimenMapped, src: SpecimenClean, mc: MicroConcept, cands: seq<HadmCandidate>)
  {
    src.specItemid.Some? && mc.item.itemid == src.specItemid &&
    r.subjectId == src.subjectId && r.hadmId == LinkedHadm(src.hadmId, src.prov.traceId, cands) &&
    r.dateId == src.startDatetime.date && r.typeConceptId == LabTypeConcept &&
    r.startDatetime == src.startDatetime && r.specItemid == src.specItemid &&
    r.sourceCode == mc.item.sourceCode && r.sourceVocabularyId == mc.item.sourceVocabularyId &&
    r.sourceConceptId == SourceConceptId(mc.res) && r.targetConceptId == TargetConceptId(mc.res) &&
    r.targetDomainId == Coalesce(TargetDomainId(mc.res), "Specimen") &&
    r.unitId == src.unitId && r.prov == src.prov
  }

  /** The rows of one specimen row are exactly those built from the lookup rows of its item. */
  lemma SpecimenMappedOfRows(src: SpecimenClean, mcs: seq<MicroConcept>, cands: seq<HadmCandidate>)
    ensures forall r :: r in SpecimenMappedOf(src, mcs, cands) <==>
              exists mc :: mc in mcs && SpecimenFrom(r, src, mc, cands) && r == SpecimenMappedRow(src, mc, cands)
  {
    MapMembership(Filter(mcs, ForItemOf(src.specItemid)), SpecimenMappedAt(src, cands));
  }

  /**
   * lk_specimen_mapped: every row comes from a specimen row and a lookup row of its
   * specimen item, and every such pair gives a row.
   */
  lemma SpecimenMappedTable(specs: seq<SpecimenClean>, mcs: seq<MicroConcept>, cands: seq<HadmCandidate>)
    ensures forall r :: r in SpecimenMappedRows(specs, mcs, cands) ==>
              exists src, mc :: src in specs && mc in mcs && SpecimenFrom(r, src, mc, cands)
    ensures forall src, mc :: src in specs && mc in mcs && ForItem(mc, src.specItemid) ==>
              SpecimenMappedRow(src, mc, cands) in SpecimenMappedRows(specs, mcs, cands)
  {
    forall r | r in SpecimenMappedRows(specs, mcs, cands)
      ensures exists src, mc :: src in specs && mc in mcs && SpecimenFrom(r, src, mc, cands)
    {
      var src :| src in specs && r in SpecimenMappedOf(src, mcs, cands);
      SpecimenMappedOfRows(src, mcs, cands);
    }
    forall src, mc | src in specs && mc in mcs && ForItem(mc, src.specItemid)
      ensures SpecimenMappedRow(src, mc, cands) in SpecimenMappedRows(specs, mcs, cands)
    {
      SpecimenMappedOfRows(src, mcs, cands);
      assert SpecimenFrom(SpecimenMappedRow(src, mc, cands), src, mc, cands);
    }
  }

  // ---------------------------------------------------------------------------
  // lk_meas_organism_mapped

  datatype OrganismMapped = OrganismMapped(
    subjectId: int,
    hadmId: Option<int>,
    dateId: Date,
    typeConceptId: int,
    startDatetime: Timestamp,
    testItemid: Option<int>,
    specItemid: Option<int>,
    orgItemid: Option<int>,
    sourceCode: string,
    sourceVocabularyId: string,
    sourceConceptId: Option<int>,
    targetDomainId: string,
    targetConceptId: Option<int>,
    valueSourceValue: Option<string>,
    valueAsConceptId: Option<int>,
    traceIdSpec: int,
    unitId: string,
    prov: Provenance)

  /** The code column of an optional lookup row. */
  function CodeOf(c: Option<MicroConcept>): Option<string>
  {
    if c.Some? then Some(c.value.item.sourceCode) else None
  }

  /** The target concept of an optional lookup row. */
  function TargetOf(c: Option<MicroConcept>): Option<int>
  {
    if c.Some? then TargetConceptId(c.value.res) else None
  }

  function OrganismMappedRow(src: OrganismClean, tc: MicroConcept, sc: MicroConcept, oc: Option<MicroConcept>,
                             cands: seq<HadmCandidate>): OrganismMapped
  {
    OrganismMapped(src.subjectId, LinkedHadm(src.hadmId, src.prov.traceId, cands), DateOf(src.startDatetime),
                   LabTypeConcept, src.startDatetime, src.testItemid, src.specItemid, src.orgItemid,
                   Concat([Some(tc.item.sourceCode), Some("|"), Some(sc.item.sourceCode)]),
                   tc.item.sourceVocabularyId, SourceConceptId(tc.res),
                   Coalesce(TargetDomainId(tc.res), "Measurement"), TargetConceptId(tc.res),
                   CodeOf(oc), TargetOf(oc), src.traceIdSpec, src.unitId, src.prov)
  }

  function OrganismMappedAt(src: OrganismClean, tc: MicroConcept, sc: MicroConcept, cands: seq<HadmCandidate>)
    : Option<MicroConcept> -> OrganismMapped
  {
    (oc: Option<MicroConcept>) => OrganismMappedRow(src, tc, sc, oc, cands)
  }

  /** The organism LEFT JOIN of one (row, test concept, specimen concept) combination. */
  function OrgRowsForSpec(src: OrganismClean, tc: MicroConcept, sc: MicroConcept, mcs: seq<MicroConcept>,
                          cands: seq<HadmCandidate>): seq<OrganismMapped>
  {
    Map(LeftMatches(mcs, ForItemOf(src.orgItemid)), OrganismMappedAt(src, tc, sc, cands))
  }

  /** The specimen INNER JOIN, then the organism LEFT JOIN, of one (row, test concept) combination. */
  function OrgRowsForTest(src: OrganismClean, tc: MicroConcept, mcs: seq<MicroConcept>, cands: seq<HadmCandidate>)
    : seq<OrganismMapped>
  {
    FlatMap(Filter(mcs, ForItemOf(src.specItemid)), (sc: MicroConcept) => OrgRowsForSpec(src, tc, sc, mcs, cands))
  }

  function OrganismMappedOf(src: OrganismClean, mcs: seq<MicroConcept>, cands: seq<HadmCandidate>)
    : seq<OrganismMapped>
  {
    FlatMap(Filter(mcs, ForItemOf(src.testItemid)), (tc: MicroConcept) => OrgRowsForTest(src, tc, mcs, cands))
  }

  /**
   * createMeasurementOrganismMapped: each organism row INNER JOINed with the lookup rows
   * of its test item and of its specimen item, LEFT JOINed with those of its organism item
   * and with its inferred admission.
   */
  function OrganismMappedRows(orgs: seq<OrganismClean>, mcs: seq<MicroConcept>, cands: seq<HadmCandidate>)
    : seq<OrganismMapped>
  {
    FlatMap(orgs, (src: OrganismClean) => OrganismMappedOf(src, mcs, cands))
  }

  /** The columns an organism mapped row takes from its organism row, whatever the lookup rows. */
  predicate OrganismCopies(r: OrganismMapped, src: OrganismClean, cands: seq<HadmCandidate>)
  {
    r.subjectId == src.subjectId && r.hadmId == LinkedHadm(src.hadmId, src.prov.traceId, cands) &&
    r.dateId == src.startDatetime.date && r.typeConceptId == LabTypeConcept &&
    r.startDatetime == src.startDatetime && r.testItemid == src.testItemid && r.specItemid == src.specItemid &&
    r.orgItemid == src.orgItemid && r.traceIdSpec == src.traceIdSpec && r.unitId == src.unitId && r.prov == src.prov
  }

  /**
   * The measurement is the test: source code '<test code>|<specimen code>', the test's
   * vocabulary and concepts, target domain 'Measurement' when unresolved.
   */
  predicate OrganismTest(r: OrganismMapped, src: OrganismClean, tc: MicroConcept, sc: MicroConcept)
  {
    src.testItemid.Some? && tc.item.itemid == src.testItemid &&
    src.specItemid.Some? && sc.item.itemid == src.specItemid &&
    r.sourceCode == tc.item.sourceCode + "|" + sc.item.sourceCode &&
    r.sourceVocabularyId == tc.item.sourceVocabularyId && r.sourceConceptId == SourceConceptId(tc.res) &&
    r.targetConceptId == TargetConceptId(tc.res) && r.targetDomainId == Coalesce(TargetDomainId(tc.res), "Measurement")
  }

  /**
   * The value is the organism: the code and target of a lookup row of the organism item,
   * both NULL exactly when no lookup row has that item (in particular when it is NULL).
   */
  ghost predicate OrganismValue(r: OrganismMapped, src: OrganismClean, mcs: seq<MicroConcept>)
  {
    (r.valueSourceValue.None? <==> forall c :: c in mcs ==> !ForItem(c, src.orgItemid)) &&
    (r.valueSourceValue.None? ==> r.valueAsConceptId.None?) &&
    (r.valueSourceValue.Some? ==>
       exists oc :: oc in mcs && ForItem(oc, src.orgItemid) && r.valueSourceValue == Some(oc.item.sourceCode) &&
                    r.valueAsConceptId == TargetConceptId(oc.res))
  }

  ghost predicate OrganismFrom(r: OrganismMapped, src: OrganismClean, mcs: seq<MicroConcept>, cands: seq<HadmCandidate>)
  {
    OrganismCopies(r, src, cands) && OrganismValue(r, src, mcs) &&
    exists tc, sc :: tc in mcs && sc in mcs && OrganismTest(r, src, tc, sc)
  }

  lemma TestCodeConcat(tc: MicroConcept, sc: MicroConcept)
    ensures Concat([Some(tc.item.sourceCode), Some("|"), Some(sc.item.sourceCode)]) ==
            tc.item.sourceCode + "|" + sc.item.sourceCode
  {
    var parts := [Some(tc.item.sourceCode), Some("|"), Some(sc.item.sourceCode)];
    assert parts[1..][1..][1..] == [];
    assert Concat(parts[1..][1..]) == sc.item.sourceCode;
    assert Concat(parts[1..]) == "|" + sc.item.sourceCode;
  }

  lemma OrganismRowFrom(src: OrganismClean, mcs: seq<MicroConcept>, cands: seq<HadmCandidate>,
                        tc: MicroConcept, sc: MicroConcept, oc: Option<MicroConcept>)
    requires tc in mcs && ForItem(tc, src.testItemid) && sc in mcs && ForItem(sc, src.specItemid)
    requires oc in LeftMatches(mcs, ForItemOf(src.orgItemid))
    ensures OrganismFrom(OrganismMappedRow(src, tc, sc, oc, cands), src, mcs, cands)
  {
    var r := OrganismMappedRow(src, tc, sc, oc, cands);
    TestCodeConcat(tc, sc);
    assert OrganismTest(r, src, tc, sc);
    if oc.Some? {
      assert Some(oc.value) in LeftMatches(mcs, ForItemOf(src.orgItemid));
    } else {
      assert None in LeftMatches(mcs, ForItemOf(src.orgItemid));
    }
  }

  lemma OrgRowsForSpecFrom(src: OrganismClean, mcs: seq<MicroConcept>, cands: seq<HadmCandidate>,
                           tc: MicroConcept, sc: MicroConcept)
    requires tc in mcs && ForItem(tc, src.testItemid) && sc in mcs && ForItem(sc, src.specItemid)
    ensures forall r :: r in OrgRowsForSpec(src, tc, sc, mcs, cands) ==> OrganismFrom(r, src, mcs, cands)
  {
    var ocs := LeftMatches(mcs, ForItemOf(src.orgItemid));
    forall r | r in OrgRowsForSpec(src, tc, sc, mcs, cands) ensures OrganismFrom(r, src, mcs, cands) {
      var i :| 0 <= i < |ocs| && OrgRowsForSpec(src, tc, sc, mcs, cands)[i] == r;
      OrganismRowFrom(src, mcs, cands, tc, sc, ocs[i]);
    }
  }

  lemma OrgRowsForTestFrom(src: OrganismClean, mcs: seq<MicroConcept>, cands: seq<HadmCandidate>, tc: MicroConcept)
    requires tc in mcs && ForItem(tc, src.testItemid)
    ensures forall r :: r in OrgRowsForTest(src, tc, mcs, cands) ==> OrganismFrom(r, src, mcs, cands)
  {
    forall r | r in OrgRowsForTest(src, tc, mcs, cands) ensures OrganismFrom(r, src, mcs, cands) {
      var sc :| sc in Filter(mcs, ForItemOf(src.specItemid)) && r in OrgRowsForSpec(src, tc, sc, mcs, cands);
      OrgRowsForSpecFrom(src, mcs, cands, tc, sc);
    }
  }

  lemma OrganismMappedOfFrom(src: OrganismClean, mcs: seq<MicroConcept>, cands: seq<HadmCandidate>)
    ensures forall r :: r in OrganismMappedOf(src, mcs, cands) ==> OrganismFrom(r, src, mcs, cands)
  {
    forall r | r in OrganismMappedOf(src, mcs, cands) ensures OrganismFrom(r, src, mcs, cands) {
      var tc :| tc in Filter(mcs, ForItemOf(src.testItemid)) && r in OrgRowsForTest(src, tc, mcs, cands);
      OrgRowsForTestFrom(src, mcs, cands, tc);
    }
  }

  /**
   * Every organism mapped row comes from an organism row: it copies the row, takes the
   * measurement from lookup rows of its test and specimen items and the value from a lookup
   * row of its organism item, or NULL when there is none.
   */
  lemma OrganismMappedSound(orgs: seq<OrganismClean>, mcs: seq<MicroConcept>, cands: seq<HadmCandidate>)
    ensures forall r :: r in OrganismMappedRows(orgs, mcs, cands) ==>
              exists src :: src in orgs && OrganismFrom(r, src, mcs, cands)
  {
    forall r | r in OrganismMappedRows(orgs, mcs, cands) ensures exists src :: src in orgs && OrganismFrom(r, src, mcs, cands) {
      var src :| src in orgs && r in OrganismMappedOf(src, mcs, cands);
      OrganismMappedOfFrom(src, mcs, cands);
    }
  }

  /**
   * An organism row whose test and specimen items both have lookup rows is not lost: the
   * organism join is a LEFT JOIN.
   */
  lemma OrganismMappedKeepsRow(orgs: seq<OrganismClean>, mcs: seq<MicroConcept>, cands: seq<HadmCandidate>,
                               src: OrganismClean, tc: MicroConcept, sc: MicroConcept)
    requires src in orgs && tc in mcs && ForItem(tc, src.testItemid) && sc in mcs && ForItem(sc, src.specItemid)
    ensures exists r :: r in OrganismMappedRows(orgs, mcs, cands) && OrganismFrom(r, src, mcs, cands) &&
                        OrganismTest(r, src, tc, sc)
  {
    var oc := LeftMatches(mcs, ForItemOf(src.orgItemid))[0];
    var r := OrganismMappedRow(src, tc, sc, oc, cands);
    assert OrganismFrom(r, src, mcs, cands) by {
      OrganismRowFrom(src, mcs, cands, tc, sc, oc);
    }
    assert OrganismTest(r, src, tc, sc) by {
      TestCodeConcat(tc, sc);
    }
    assert r in OrganismMappedOf(src, mcs, cands) by {
      OrganismMappedRowIn(src, mcs, cands, tc, sc);
    }
  }

  /** The row of one test concept, one specimen concept and the first organism match is among the row's mapped rows. */
  lemma OrganismMappedRowIn(src: OrganismClean, mcs: seq<MicroConcept>, cands: seq<HadmCandidate>,
                            tc: MicroConcept, sc: MicroConcept)
    requires tc in mcs && ForItem(tc, src.testItemid) && sc in mcs && ForItem(sc, src.specItemid)
    ensures OrganismMappedRow(src, tc, sc, LeftMatches(mcs, ForItemOf(src.orgItemid))[0], cands)
              in OrganismMappedOf(src, mcs, cands)
  {
    var r := OrganismMappedRow(src, tc, sc, LeftMatches(mcs, ForItemOf(src.orgItemid))[0], cands);
    assert r == OrgRowsForSpec(src, tc, sc, mcs, cands)[0];
    assert r in OrgRowsForTest(src, tc, mcs, cands) by {
      assert sc in Filter(mcs, ForItemOf(src.specItemid));
    }
    assert tc in Filter(mcs, ForItemOf(src.testItemid));
  }

  // ---------------------------------------------------------------------------
  // lk_meas_ab_mapped

  datatype AbMapped = AbMapped(
    subjectId: int,
    hadmId: Option<int>,
    dateId: Date,
    typeConceptId: int,
    startDatetime: Timestamp,
    abItemid: Option<int>,
    sourceCode: string,
    targetConceptId: int,
    sourceConceptId: int,
    valueAsConceptId: Option<int>,
    valueSourceValue: Option<string>,
    valueAsNumber: Option<real>,
    operatorSourceValue: Option<string>,
    operatorConceptId: Option<int>,
    targetDomainId: string,
    traceIdOrg: int,
    unitId: string,
    prov: Provenance)

  /** ON src.interpretation = rc.source_code AND rc.source_vocabulary_id = 'mimiciv_micro_resistance' */
  predicate ResistanceOf(c: MicroConcept, interpretation: Option<string>)
  {
    SqlEq(Some(c.item.sourceCode), interpretation) && c.item.sourceVocabularyId == ResistanceVocabulary
  }

  function ResistanceOfOf(interpretation: Option<string>): MicroConcept -> bool
  {
    (c: MicroConcept) => ResistanceOf(c, interpretation)
  }

  function AbMappedRow(src: AbClean, ac: MicroConcept, rc: Option<MicroConcept>, o: Option<OperatorRow>,
                       cands: seq<HadmCandidate>): AbMapped
  {
    AbMapped(src.subjectId, LinkedHadm(src.hadmId, src.prov.traceId, cands), DateOf(src.startDatetime),
             LabTypeConcept, src.startDatetime, src.abItemid, ac.item.sourceCode,
             Coalesce(TargetConceptId(ac.res), 0), Coalesce(SourceConceptId(ac.res), 0), TargetOf(rc),
             src.interpretation, src.dilutionValue, src.dilutionComparison, OperatorConceptId(o),
             Coalesce(TargetDomainId(ac.res), "Measurement"), src.traceIdOrg, src.unitId, src.prov)
  }

  function AbMappedAt(src: AbClean, ac: MicroConcept, rc: Option<MicroConcept>, cands: seq<HadmCandidate>)
    : Option<OperatorRow> -> AbMapped
  {
    (o: Option<OperatorRow>) => AbMappedRow(src, ac, rc, o, cands)
  }

  /** The operator LEFT JOIN on dilution_comparison of one (row, antibiotic concept, resistance concept) combination. */
  function AbRowsForResistance(src: AbClean, ac: MicroConcept, rc: Option<MicroConcept>, ops: seq<OperatorRow>,
                               cands: seq<HadmCandidate>): seq<AbMapped>
  {
    Map(OperatorMatches(ops, src.dilutionComparison), AbMappedAt(src, ac, rc, cands))
  }

  /** The resistance LEFT JOIN, then the operator LEFT JOIN, of one (row, antibiotic concept) combination. */
  function AbRowsForConcept(src: AbClean, ac: MicroConcept, mcs: seq<MicroConcept>, ops: seq<OperatorRow>,
                            cands: seq<HadmCandidate>): seq<AbMapped>
  {
    FlatMap(LeftMatches(mcs, ResistanceOfOf(src.interpretation)),
            (rc: Option<MicroConcept>) => AbRowsForResistance(src, ac, rc, ops, cands))
  }

  function AbMappedOf(src: AbClean, mcs: seq<MicroConcept>, ops: seq<OperatorRow>, cands: seq<HadmCandidate>)
    : seq<AbMapped>
  {
    FlatMap(Filter(mcs, ForItemOf(src.abItemid)), (ac: MicroConcept) => AbRowsForConcept(src, ac, mcs, ops, cands))
  }

  /**
   * createMeasurementAntibioticMapped: each antibiotic row INNER JOINed with the lookup
   * rows of its antibiotic item, LEFT JOINed with the resistance lookup rows of its
   * interpretation, with the operator named by its dilution comparison and with its
   * inferred admission.
   */
  function AbMappedRows(abRows: seq<AbClean>, mcs: seq<MicroConcept>, ops: seq<OperatorRow>, cands: seq<HadmCandidate>)
    : seq<AbMapped>
  {
    FlatMap(abRows, (src: AbClean) => AbMappedOf(src, mcs, ops, cands))
  }

  /** The columns an antibiotic mapped row takes from its antibiotic row. */
  predicate AbCopies(r: AbMapped, src: AbClean, cands: seq<HadmCandidate>)
  {
    r.subjectId == src.subjectId && r.hadmId == LinkedHadm(src.hadmId, src.prov.traceId, cands) &&
    r.dateId == src.startDatetime.date && r.typeConceptId == LabTypeConcept &&
    r.startDatetime == src.startDatetime && r.abItemid == src.abItemid &&
    r.valueSourceValue == src.interpretation && r.valueAsNumber == src.dilutionValue &&
    r.operatorSourceValue == src.dilutionComparison && r.traceIdOrg == src.traceIdOrg &&
    r.unitId == src.unitId && r.prov == src.prov
  }

  /** The measurement is the antibiotic: its code, its concepts with 0 for NULL, domain 'Measurement' when unresolved. */
  predicate AbConcept(r: AbMapped, src: AbClean, ac: MicroConcept)
  {
    src.abItemid.Some? && ac.item.itemid == src.abItemid && r.sourceCode == ac.item.sourceCode &&
    r.targetConceptId == Coalesce(TargetConceptId(ac.res), 0) &&
    r.sourceConceptId == Coalesce(SourceConceptId(ac.res), 0) &&
    r.targetDomainId == Coalesce(TargetDomainId(ac.res), "Measurement")
  }

  /**
   * value_as_concept_id: when a resistance lookup row of the interpretation exists, the
   * target of one such row (NULL only when that row has no target); NULL when there is none.
   */
  ghost predicate AbValue(r: AbMapped, src: AbClean, mcs: seq<MicroConcept>)
  {
    ((forall c :: c in mcs ==> !ResistanceOf(c, src.interpretation)) && r.valueAsConceptId.None?) ||
    exists rc :: rc in mcs && ResistanceOf(rc, src.interpretation) && r.valueAsConceptId == TargetConceptId(rc.res)
  }

  /** operator_concept_id: the target of an operator named by the dilution comparison, NULL exactly when there is none. */
  ghost predicate AbOperator(r: AbMapped, src: AbClean, ops: seq<OperatorRow>)
  {
    (r.operatorConceptId.None? <==> forall o :: o in ops ==> !OperatorNamed(o, src.dilutionComparison)) &&
    (r.operatorConceptId.Some? ==>
       exists o :: o in ops && OperatorNamed(o, src.dilutionComparison) && r.operatorConceptId == Some(o.targetConceptId))
  }

  ghost predicate AbFrom(r: AbMapped, src: AbClean, mcs: seq<MicroConcept>, ops: seq<OperatorRow>, cands: seq<HadmCandidate>)
  {
    AbCopies(r, src, cands) && AbValue(r, src, mcs) && AbOperator(r, src, ops) &&
    exists ac :: ac in mcs && AbConcept(r, src, ac)
  }

  lemma AbRowFrom(src: AbClean, mcs: seq<MicroConcept>, ops: seq<OperatorRow>, cands: seq<HadmCandidate>,
                  ac: MicroConcept, rc: Option<MicroConcept>, o: Option<OperatorRow>)
    requires ac in mcs && ForItem(ac, src.abItemid)
    requires rc in LeftMatches(mcs, ResistanceOfOf(src.interpretation))
    requires o in OperatorMatches(ops, src.dilutionComparison)
    ensures AbFrom(AbMappedRow(src, ac, rc, o, cands), src, mcs, ops, cands)
  {
    var r := AbMappedRow(src, ac, rc, o, cands);
    assert AbConcept(r, src, ac);
    if rc.Some? {
      assert Some(rc.value) in LeftMatches(mcs, ResistanceOfOf(src.interpretation));
    } else {
      assert None in LeftMatches(mcs, ResistanceOfOf(src.interpretation));
    }
    if o.Some? {
      assert Some(o.value) in OperatorMatches(ops, src.dilutionComparison);
    } else {
      assert None in OperatorMatches(ops, src.dilutionComparison);
    }
  }

  lemma AbRowsForResistanceFrom(src: AbClean, mcs: seq<MicroConcept>, ops: seq<OperatorRow>, cands: seq<HadmCandidate>,
                                ac: MicroConcept, rc: Option<MicroConcept>)
    requires ac in mcs && ForItem(ac, src.abItemid)
    requires rc in LeftMatches(mcs, ResistanceOfOf(src.interpretation))
    ensures forall r :: r in AbRowsForResistance(src, ac, rc, ops, cands) ==> AbFrom(r, src, mcs, ops, cands)
  {
    var os := OperatorMatches(ops, src.dilutionComparison);
    forall r | r in AbRowsForResistance(src, ac, rc, ops, cands) ensures AbFrom(r, src, mcs, ops, cands) {
      var i :| 0 <= i < |os| && AbRowsForResistance(src, ac, rc, ops, cands)[i] == r;
      AbRowFrom(src, mcs, ops, cands, ac, rc, os[i]);
    }
  }

  lemma AbRowsForConceptFrom(src: AbClean, mcs: seq<MicroConcept>, ops: seq<OperatorRow>, cands: seq<HadmCandidate>,
                             ac: MicroConcept)
    requires ac in mcs && ForItem(ac, src.abItemid)
    ensures forall r :: r in AbRowsForConcept(src, ac, mcs, ops, cands) ==> AbFrom(r, src, mcs, ops, cands)
  {
    forall r | r in AbRowsForConcept(src, ac, mcs, ops, cands) ensures AbFrom(r, src, mcs, ops, cands) {
      var rc :| rc in LeftMatches(mcs, ResistanceOfOf(src.interpretation)) &&
                r in AbRowsForResistance(src, ac, rc, ops, cands);
      AbRowsForResistanceFrom(src, mcs, ops, cands, ac, rc);
    }
  }

  lemma AbMappedOfFrom(src: AbClean, mcs: seq<MicroConcept>, ops: seq<OperatorRow>, cands: seq<HadmCandidate>)
    ensures forall r :: r in AbMappedOf(src, mcs, ops, cands) ==> AbFrom(r, src, mcs, ops, cands)
  {
    forall r | r in AbMappedOf(src, mcs, ops, cands) ensures AbFrom(r, src, mcs, ops, cands) {
      var ac :| ac in Filter(mcs, ForItemOf(src.abItemid)) && r in AbRowsForConcept(src, ac, mcs, ops, cands);
      AbRowsForConceptFrom(src, mcs, ops, cands, ac);
    }
  }

  /**
   * Every antibiotic mapped row comes from an antibiotic row: it copies the row, takes the
   * measurement from a lookup row of its antibiotic item, its value concept from a
   * resistance row of its interpretation and its operator from its dilution comparison.
   */
  lemma AbMappedSound(abRows: seq<AbClean>, mcs: seq<MicroConcept>, ops: seq<OperatorRow>, cands: seq<HadmCandidate>)
    ensures forall r :: r in AbMappedRows(abRows, mcs, ops, cands) ==>
              exists src :: src in abRows && AbFrom(r, src, mcs, ops, cands)
  {
    forall r | r in AbMappedRows(abRows, mcs, ops, cands) ensures exists src :: src in abRows && AbFrom(r, src, mcs, ops, cands) {
      var src :| src in abRows && r in AbMappedOf(src, mcs, ops, cands);
      AbMappedOfFrom(src, mcs, ops, cands);
    }
  }

  /** An antibiotic row whose item has a lookup row is not lost: the other joins are LEFT JOINs. */
  lemma AbMappedKeepsRow(abRows: seq<AbClean>, mcs: seq<MicroConcept>, ops: seq<OperatorRow>, cands: seq<HadmCandidate>,
                         src: AbClean, ac: MicroConcept)
    requires src in abRows && ac in mcs && ForItem(ac, src.abItemid)
    ensures exists r :: r in AbMappedRows(abRows, mcs, ops, cands) && AbFrom(r, src, mcs, ops, cands) &&
                        AbConcept(r, src, ac)
  {
    var rc := LeftMatches(mcs, ResistanceOfOf(src.interpretation))[0];
    var o := OperatorMatches(ops, src.dilutionComparison)[0];
    var r := AbMappedRow(src, ac, rc, o, cands);
    AbRowFrom(src, mcs, ops, cands, ac, rc, o);
    assert r == AbRowsForResistance(src, ac, rc, ops, cands)[0];
    assert r in AbRowsForConcept(src, ac, mcs, ops, cands);
    assert ac in Filter(mcs, ForItemOf(src.abItemid));
    assert r in AbMappedOf(src, mcs, ops, cands);
  }

  // ---------------------------------------------------------------------------
  // The microbiology pipeline end to end.

  /** lk_d_micro_concept as the pipeline builds it, from d_micro and the antibiotic rows of the events. */
  function MicroConcepts(events: seq<MicroEvent>, dms: seq<DMicro>, concepts: seq<Concept>,
                         rels: seq<ConceptRelationship>): seq<MicroConcept>
  {
    MicroLookupConcept(MicroLookupClean(dms, AbCleanRows(events)), concepts, rels)
  }

  /** Every d_micro item has a lookup concept row that joins it. */
  lemma DictionaryConceptJoins(items: seq<MicroItem>, dms: seq<DMicro>, abRows: seq<AbClean>, concepts: seq<Concept>,
                               rels: seq<ConceptRelationship>, d: DMicro)
    requires items == MicroLookupClean(dms, abRows) && d in dms
    ensures exists c :: c in MicroLookupConcept(items, concepts, rels) && ForItem(c, Some(d.itemid))
  {
    MapMembership(dms, DictionaryItem);
    assert DictionaryItem(d) in items;
    MicroConceptRowOfItem(items, concepts, rels, DictionaryItem(d));
  }

  /**
   * The resistance LEFT JOIN never comes back empty-handed: every antibiotic row with a
   * non-NULL interpretation finds a resistance lookup row of that interpretation, whose
   * target, if any, is a standard, valid concept that a concept with that code in
   * 'mimiciv_micro_resistance' maps to.
   */
  lemma ResistanceRowFound(dms: seq<DMicro>, abRows: seq<AbClean>, concepts: seq<Concept>,
                           rels: seq<ConceptRelationship>, src: AbClean)
    requires src in abRows && src.interpretation.Some?
    ensures var mcs := MicroLookupConcept(MicroLookupClean(dms, abRows), concepts, rels);
            None !in LeftMatches(mcs, ResistanceOfOf(src.interpretation)) &&
            forall rc :: rc in mcs && ResistanceOf(rc, src.interpretation) && rc.res.target.Some? ==>
              rc.res.target.value in concepts && IsStandardValid(rc.res.target.value) &&
              exists c :: c in concepts && HasCode(c, src.interpretation, ResistanceVocabulary) &&
                          Reaches(c, rc.res.target.value, rels)
  {
    var items := MicroLookupClean(dms, abRows);
    var mcs := MicroLookupConcept(items, concepts, rels);
    var it := ResistanceItem(src.interpretation.value);
    MicroLookupCleanRows(dms, abRows);
    assert it in items;
    MicroConceptRowOfItem(items, concepts, rels, it);
    var c :| c in mcs && c.item == it;
    assert ResistanceOf(c, src.interpretation);
    forall rc | rc in mcs && ResistanceOf(rc, src.interpretation) && rc.res.target.Some?
      ensures rc.res.target.value in concepts && IsStandardValid(rc.res.target.value) &&
              exists c :: c in concepts && HasCode(c, src.interpretation, ResistanceVocabulary) &&
                          Reaches(c, rc.res.target.value, rels)
    {
      MicroConceptRowFrom(items, concepts, rels, rc);
    }
  }

  /**
   * No specimen is lost: the leader of a specimen partition whose specimen item is in
   * d_micro reaches lk_specimen_mapped with its own identity, time and trace_id, and the
   * admission the microbiology hadm link gives it.
   */
  lemma SpecimenPipelineKeepsLeaders(events: seq<MicroEvent>, dms: seq<DMicro>, concepts: seq<Concept>,
                                     rels: seq<ConceptRelationship>, adms: seq<AdmissionClean>,
                                     r: MicroEvent, d: DMicro)
    requires UniqueTraces(events) && r in events && IsSpecLeader(events, r) && d in dms && r.specItemid == Some(d.itemid)
    ensures var cands := MicroHadmCandidates(events, adms);
            exists m :: m in SpecimenMappedRows(SpecimenCleanRows(events), MicroConcepts(events, dms, concepts, rels), cands) &&
                        m.subjectId == r.subjectId && m.startDatetime == StartOf(r) && m.specItemid == r.specItemid &&
                        m.prov.traceId == TraceOf(r) && m.hadmId == LinkedHadm(r.hadmId, TraceOf(r), cands)
  {
    var cands := MicroHadmCandidates(events, adms);
    var specs := SpecimenCleanRows(events);
    var mcs := MicroConcepts(events, dms, concepts, rels);
    LeaderRowIsSpecimen(events, r);
    DictionaryConceptJoins(MicroLookupClean(dms, AbCleanRows(events)), dms, AbCleanRows(events), concepts, rels, d);
    var c :| c in mcs && ForItem(c, Some(d.itemid));
    SpecimenMappedTable(specs, mcs, cands);
    assert SpecimenMappedRow(SpecLeaderRow(r), c, cands) in SpecimenMappedRows(specs, mcs, cands);
  }

  /**
   * No organism is lost: the leader of a test-organism partition whose test and specimen
   * items are in d_micro reaches lk_meas_organism_mapped with its own identity, time and
   * trace_id, the trace_id of its specimen partition, and its linked admission.
   */
  lemma OrganismPipelineKeepsLeaders(events: seq<MicroEvent>, dms: seq<DMicro>, concepts: seq<Concept>,
                                     rels: seq<ConceptRelationship>, adms: seq<AdmissionClean>,
                                     r: MicroEvent, dt: DMicro, ds: DMicro)
    requires UniqueTraces(events) && r in events && IsOrgLeader(events, r)
    requires dt in dms && r.testItemid == Some(dt.itemid) && ds in dms && r.specItemid == Some(ds.itemid)
    ensures var cands := MicroHadmCandidates(events, adms);
            exists m :: m in OrganismMappedRows(OrganismCleanRows(events), MicroConcepts(events, dms, concepts, rels), cands) &&
                        m.subjectId == r.subjectId && m.startDatetime == StartOf(r) && m.testItemid == r.testItemid &&
                        m.specItemid == r.specItemid && m.orgItemid == r.orgItemid &&
                        m.prov.traceId == TraceOf(r) && m.traceIdSpec == SpecTrace(events, r) &&
                        m.hadmId == LinkedHadm(r.hadmId, TraceOf(r), cands)
  {
    var cands := MicroHadmCandidates(events, adms);
    var orgs := OrganismCleanRows(events);
    var mcs := MicroConcepts(events, dms, concepts, rels);
    var items := MicroLookupClean(dms, AbCleanRows(events));
    LeaderRowIsOrganism(events, r);
    DictionaryConceptJoins(items, dms, AbCleanRows(events), concepts, rels, dt);
    DictionaryConceptJoins(items, dms, AbCleanRows(events), concepts, rels, ds);
    var tc :| tc in mcs && ForItem(tc, Some(dt.itemid));
    var sc :| sc in mcs && ForItem(sc, Some(ds.itemid));
    OrganismMappedKeepsRow(orgs, mcs, cands, OrgLeaderRow(events, r), tc, sc);
  }

  /**
   * No antibiotic result is lost: an event with an antibiotic item in d_micro reaches
   * lk_meas_ab_mapped with its own identity, time, trace_id and interpretation, the
   * trace_id of its test-organism partition, and its linked admission.
   */
  lemma AbPipelineKeepsEvents(events: seq<MicroEvent>, dms: seq<DMicro>, concepts: seq<Concept>,
                              rels: seq<ConceptRelationship>, ops: seq<OperatorRow>, adms: seq<AdmissionClean>,
                              e: MicroEvent, d: DMicro)
    requires UniqueTraces(events) && e in events && d in dms && e.abItemid == Some(d.itemid)
    ensures var cands := MicroHadmCandidates(events, adms);
            exists m :: m in AbMappedRows(AbCleanRows(events), MicroConcepts(events, dms, concepts, rels), ops, cands) &&
                        m.subjectId == e.subjectId && m.startDatetime == StartOf(e) && m.abItemid == e.abItemid &&
                        m.valueSourceValue == e.interpretation && m.prov.traceId == TraceOf(e) &&
                        m.traceIdOrg == OrgTrace(events, e) && m.hadmId == LinkedHadm(e.hadmId, TraceOf(e), cands)
  {
    var cands := MicroHadmCandidates(events, adms);
    var abRows := AbCleanRows(events);
    var mcs := MicroConcepts(events, dms, concepts, rels);
    AbCleanFromEvents(events);
    var src := AbRow(e, CrossRefOf(events, e));
    assert src in abRows;
    DictionaryConceptJoins(MicroLookupClean(dms, abRows), dms, abRows, concepts, rels, d);
    var ac :| ac in mcs && ForItem(ac, Some(d.itemid));
    AbMappedKeepsRow(abRows, mcs, ops, cands, src, ac);
  }
}
