/**
 * The person stages: each subject's first recorded ethnicity (tmp_subject_ethnicity), its
 * resolution into the Race and Ethnicity vocabularies (lk_pat_ethnicity_concept), the
 * cdm_person rows built from src_patients, and the final pass that keeps only the persons
 * with an observation period.
 *
 * person_id is a random number in the source; here it is whatever the parameter `ids`
 * gives the patient.
 */
module Person {
  import opened Sql
  import opened Source
  import opened Vocabulary

  // ---------------------------------------------------------------------------
  // tmp_subject_ethnicity

  datatype SubjectEthnicity = SubjectEthnicity(subjectId: int, ethnicityFirst: Option<string>)

  /** The admission ORDER BY admittime puts first: one with the earliest admittime, the first such in table order. */
  function EarliestAdmission(adms: seq<Admission>): (r: Option<Admission>)
    ensures r.None? <==> adms == []
    ensures r.Some? ==> r.value in adms && forall a :: a in adms ==> TsLe(r.value.admittime, a.admittime)
  {
    if adms == [] then None
    else
      var rest := EarliestAdmission(adms[1..]);
      if rest.None? then Some(adms[0])
      else if TsLe(adms[0].admittime, rest.value.admittime) then
        assert forall a :: a in adms[1..] ==> TsLe(adms[0].admittime, a.admittime) by {
          forall a | a in adms[1..] ensures TsLe(adms[0].admittime, a.admittime) {
            TsLeTrans(adms[0].admittime, rest.value.admittime, a.admittime);
          }
        }
        Some(adms[0])
      else
        TsLeTotal(adms[0].admittime, rest.value.admittime);
        rest
  }

  predicate OfSubject(a: Admission, subjectId: int)
  {
    a.subjectId == subjectId
  }

  function OfSubjectOf(subjectId: int): Admission -> bool
  {
    (a: Admission) => OfSubject(a, subjectId)
  }

  /** The subject's admissions, the partition FIRST_VALUE reads. */
  function AdmissionsOf(adms: seq<Admission>, subjectId: int): seq<Admission>
  {
    Filter(adms, OfSubjectOf(subjectId))
  }

  function FirstEthnicity(adms: seq<Admission>, subjectId: int): Option<string>
  {
    var first := EarliestAdmission(AdmissionsOf(adms, subjectId));
    if first.Some? then first.value.ethnicity else None
  }

  function SubjectRowOf(adms: seq<Admission>): Admission -> SubjectEthnicity
  {
    (a: Admission) => SubjectEthnicity(a.subjectId, FirstEthnicity(adms, a.subjectId))
  }

  /** createSubjectEthnicityTemp: SELECT DISTINCT subject_id, FIRST_VALUE(ethnicity) over the subject's admissions by admittime. */
  function SubjectEthnicityTemp(adms: seq<Admission>): seq<SubjectEthnicity>
  {
    Distinct(Map(adms, SubjectRowOf(adms)))
  }

  /** A subject with admissions takes the ethnicity of one of them that starts no later than any other. */
  lemma FirstEthnicityOfEarliest(adms: seq<Admission>, a: Admission)
    requires a in adms
    ensures exists f :: f in adms && f.subjectId == a.subjectId && FirstEthnicity(adms, a.subjectId) == f.ethnicity &&
                        forall b :: b in adms && b.subjectId == a.subjectId ==> TsLe(f.admittime, b.admittime)
  {
    var part := AdmissionsOf(adms, a.subjectId);
    assert a in part;
    var f := EarliestAdmission(part).value;
    assert f in part;
  }

  lemma SubjectRowFrom(adms: seq<Admission>, r: SubjectEthnicity) returns (a: Admission)
    requires r in SubjectEthnicityTemp(adms)
    ensures a in adms && r == SubjectEthnicity(a.subjectId, FirstEthnicity(adms, a.subjectId))
  {
    MapMembership(adms, SubjectRowOf(adms));
    a :| a in adms && r == SubjectRowOf(adms)(a);
  }

  /**
   * tmp_subject_ethnicity holds one row per subject with admissions and nothing else; each
   * row carries the ethnicity of an admission of the subject with the earliest admittime.
   */
  lemma SubjectEthnicityRows(adms: seq<Admission>)
    ensures forall r :: r in SubjectEthnicityTemp(adms) ==>
              exists f :: f in adms && f.subjectId == r.subjectId && r.ethnicityFirst == f.ethnicity &&
                          forall b :: b in adms && b.subjectId == r.subjectId ==> TsLe(f.admittime, b.admittime)
    ensures forall a :: a in adms ==> exists r :: r in SubjectEthnicityTemp(adms) && r.subjectId == a.subjectId
  {
    var rows := SubjectEthnicityTemp(adms);
    forall r | r in rows
      ensures exists f :: f in adms && f.subjectId == r.subjectId && r.ethnicityFirst == f.ethnicity &&
                          forall b :: b in adms && b.subjectId == r.subjectId ==> TsLe(f.admittime, b.admittime)
    {
      var a := SubjectRowFrom(adms, r);
      FirstEthnicityOfEarliest(adms, a);
    }
    forall a | a in adms ensures exists r :: r in rows && r.subjectId == a.subjectId {
      MapMembership(adms, SubjectRowOf(adms));
      assert SubjectRowOf(adms)(a) in rows;
    }
  }

  /** The DISTINCT collapses each subject's rows into one: no subject appears twice. */
  lemma SubjectEthnicityOnePerSubject(adms: seq<Admission>)
    ensures var rows := SubjectEthnicityTemp(adms);
            forall i, j :: 0 <= i < j < |rows| ==> rows[i].subjectId != rows[j].subjectId
  {
    var rows := SubjectEthnicityTemp(adms);
    forall i, j | 0 <= i < j < |rows| ensures rows[i].subjectId != rows[j].subjectId {
      var a := SubjectRowFrom(adms, rows[i]);
      var b := SubjectRowFrom(adms, rows[j]);
    }
  }

  // ---------------------------------------------------------------------------
  // lk_pat_ethnicity_concept

  datatype EthnicityConcept = EthnicityConcept(
    sourceCode: Option<string>,
    sourceConceptId: Option<int>,
    sourceVocabularyId: Option<string>,
    targetConceptId: Option<int>,
    targetVocabularyId: Option<string>)

  /** UPPER(vc.concept_code) = UPPER(ethnicity_first) AND vc.domain_id IN ('Race', 'Ethnicity') */
  predicate NamesEthnicity(c: Concept, code: Option<string>)
  {
    code.Some? && Upper(c.conceptCode) == Upper(code.value) && (c.domainId == "Race" || c.domainId == "Ethnicity")
  }

  function NamesEthnicityOf(code: Option<string>): Concept -> bool
  {
    (c: Concept) => NamesEthnicity(c, code)
  }

  function EthnicityConceptOf(code: Option<string>): Resolution -> EthnicityConcept
  {
    (res: Resolution) => EthnicityConcept(code, SourceConceptId(res), SourceVocabularyId(res), TargetConceptId(res),
                                          TargetVocabularyId(res))
  }

  function EthnicityConceptRows(s: SubjectEthnicity, concepts: seq<Concept>, rels: seq<ConceptRelationship>)
    : seq<EthnicityConcept>
  {
    Map(Resolve(concepts, rels, NamesEthnicityOf(s.ethnicityFirst), IsStandardValid), EthnicityConceptOf(s.ethnicityFirst))
  }

  /** createEthnicityConcept: the distinct resolutions of every subject's first ethnicity. */
  function EthnicityLookup(subjects: seq<SubjectEthnicity>, concepts: seq<Concept>, rels: seq<ConceptRelationship>)
    : seq<EthnicityConcept>
  {
    Distinct(FlatMap(subjects, (s: SubjectEthnicity) => EthnicityConceptRows(s, concepts, rels)))
  }

  /**
   * What a lookup row says: its source concept, if any, is a Race or Ethnicity concept whose
   * code equals the subject's ethnicity ignoring case; its target, if any, is a standard, valid
   * concept that source maps to, and target_vocabulary_id is that concept's vocabulary.
   */
  ghost predicate EthnicityResolved(m: EthnicityConcept, concepts: seq<Concept>, rels: seq<ConceptRelationship>)
  {
    (m.sourceConceptId.None? ==> m.targetConceptId.None? && m.targetVocabularyId.None?) &&
    (m.sourceConceptId.Some? ==>
       exists c :: c in concepts && NamesEthnicity(c, m.sourceCode) && m.sourceConceptId == Some(c.conceptId) &&
                   m.sourceVocabularyId == Some(c.vocabularyId) &&
                   (m.targetConceptId.None? <==> m.targetVocabularyId.None?) &&
                   (m.targetConceptId.Some? ==>
                      exists t :: t in concepts && IsStandardValid(t) && Reaches(c, t, rels) &&
                                  m.targetConceptId == Some(t.conceptId) && m.targetVocabularyId == Some(t.vocabularyId)))
  }

  lemma EthnicityRowFrom(s: SubjectEthnicity, concepts: seq<Concept>, rels: seq<ConceptRelationship>, m: EthnicityConcept)
    requires m in EthnicityConceptRows(s, concepts, rels)
    ensures m.sourceCode == s.ethnicityFirst && EthnicityResolved(m, concepts, rels)
  {
    var sourceOk := NamesEthnicityOf(s.ethnicityFirst);
    var res := MapSource(Resolve(concepts, rels, sourceOk, IsStandardValid), EthnicityConceptOf(s.ethnicityFirst), m);
    ResolveRowSound(concepts, rels, sourceOk, IsStandardValid, res);
    EthnicityResolvedOf(res, s.ethnicityFirst, concepts, rels);
  }

  /** A resolution whose source names the code and whose target that source reaches makes a resolved lookup row. */
  lemma EthnicityResolvedOf(res: Resolution, code: Option<string>, concepts: seq<Concept>, rels: seq<ConceptRelationship>)
    requires res.source.Some? ==> res.source.value in concepts && NamesEthnicity(res.source.value, code)
    requires res.target.Some? ==> res.source.Some? && res.target.value in concepts && IsStandardValid(res.target.value)
                                  && Reaches(res.source.value, res.target.value, rels)
    ensures EthnicityResolved(EthnicityConceptOf(code)(res), concepts, rels)
  {
    var m := EthnicityConceptOf(code)(res);
    if res.source.Some? {
      var c := res.source.value;
      if res.target.Some? {
        var t := res.target.value;
        assert m.targetConceptId == Some(t.conceptId) && m.targetVocabularyId == Some(t.vocabularyId);
      }
      assert m.sourceConceptId == Some(c.conceptId) && m.sourceVocabularyId == Some(c.vocabularyId);
    }
  }

  /**
   * The ethnicity lookup is sound: every row resolves the first ethnicity of some subject as
   * the predicate above says (its rows are pairwise distinct by Distinct's own contract).
   */
  lemma EthnicityLookupSound(subjects: seq<SubjectEthnicity>, concepts: seq<Concept>, rels: seq<ConceptRelationship>,
                             m: EthnicityConcept)
    requires m in EthnicityLookup(subjects, concepts, rels)
    ensures (exists s :: s in subjects && m.sourceCode == s.ethnicityFirst) && EthnicityResolved(m, concepts, rels)
  {
    var s :| s in subjects && m in EthnicityConceptRows(s, concepts, rels);
    EthnicityRowFrom(s, concepts, rels, m);
  }

  /** The ethnicity lookup is complete: every subject's first ethnicity has a row. */
  lemma EthnicityLookupComplete(subjects: seq<SubjectEthnicity>, concepts: seq<Concept>, rels: seq<ConceptRelationship>,
                                s: SubjectEthnicity)
    requires s in subjects
    ensures exists m :: m in EthnicityLookup(subjects, concepts, rels) && m.sourceCode == s.ethnicityFirst
  {
    ResolveNonEmpty(concepts, rels, NamesEthnicityOf(s.ethnicityFirst), IsStandardValid);
    var m := EthnicityConceptRows(s, concepts, rels)[0];
    assert m in EthnicityConceptRows(s, concepts, rels);
  }

  // ---------------------------------------------------------------------------
  // cdm_person

  datatype PersonRow = PersonRow(
    personId: int,
    genderConceptId: int,
    yearOfBirth: int,
    raceConceptId: int,
    ethnicityConceptId: int,
    personSourceValue: Option<string>,
    genderSourceValue: Option<string>,
    genderSourceConceptId: int,
    raceSourceValue: Option<string>,
    raceSourceConceptId: int,
    ethnicitySourceValue: Option<string>,
    ethnicitySourceConceptId: int,
    unitId: string,
    prov: Provenance)

  const FemaleConcept := 8532
  const MaleConcept := 8507

  function GenderConceptId(gender: Option<string>): int
  {
    if gender == Some("F") then FemaleConcept
    else if gender == Some("M") then MaleConcept
    else 0
  }

  /** map_eth.target_vocabulary_id = 'Ethnicity' holds: the mapping fills the ethnicity columns. */
  predicate EthnicityTarget(m: Option<EthnicityConcept>)
  {
    m.Some? && m.value.targetVocabularyId == Some("Ethnicity")
  }

  /** map_eth.target_vocabulary_id <> 'Ethnicity' holds (a NULL vocabulary satisfies neither test): the mapping fills the race columns. */
  predicate RaceTarget(m: Option<EthnicityConcept>)
  {
    m.Some? && m.value.targetVocabularyId.Some? && m.value.targetVocabularyId.value != "Ethnicity"
  }

  function EthnicityFirstOf(eth: Option<SubjectEthnicity>): Option<string>
  {
    if eth.Some? then eth.value.ethnicityFirst else None
  }

  function TargetId(m: Option<EthnicityConcept>): int
  {
    if m.Some? then Coalesce(m.value.targetConceptId, 0) else 0
  }

  function SourceId(m: Option<EthnicityConcept>): int
  {
    if m.Some? then Coalesce(m.value.sourceConceptId, 0) else 0
  }

  function PersonRowOf(p: Patient, eth: Option<SubjectEthnicity>, m: Option<EthnicityConcept>, personId: int): PersonRow
  {
    PersonRow(personId, GenderConceptId(p.gender), p.anchorYear,
              if RaceTarget(m) then TargetId(m) else 0,
              if EthnicityTarget(m) then TargetId(m) else 0,
              Some(IntToText(p.subjectId)), p.gender, 0,
              if RaceTarget(m) then EthnicityFirstOf(eth) else None,
              if RaceTarget(m) then SourceId(m) else 0,
              if EthnicityTarget(m) then EthnicityFirstOf(eth) else None,
              if EthnicityTarget(m) then SourceId(m) else 0,
              "person.patients", p.prov)
  }

  predicate SubjectIs(s: SubjectEthnicity, subjectId: int)
  {
    s.subjectId == subjectId
  }

  function SubjectIsOf(subjectId: int): SubjectEthnicity -> bool
  {
    (s: SubjectEthnicity) => SubjectIs(s, subjectId)
  }

  /** ON eth.ethnicity_first = map_eth.source_code: a NULL ethnicity never joins. */
  predicate CodeIs(m: EthnicityConcept, code: Option<string>)
  {
    SqlEq(code, m.sourceCode)
  }

  function CodeIsOf(code: Option<string>): EthnicityConcept -> bool
  {
    (m: EthnicityConcept) => CodeIs(m, code)
  }

  function PersonRowAt(p: Patient, eth: Option<SubjectEthnicity>, personId: int): Option<EthnicityConcept> -> PersonRow
  {
    (m: Option<EthnicityConcept>) => PersonRowOf(p, eth, m, personId)
  }

  /** The mapping LEFT JOIN of one (patient, subject ethnicity) combination. */
  function PersonRowsFor(p: Patient, eth: Option<SubjectEthnicity>, lookup: seq<EthnicityConcept>, personId: int)
    : seq<PersonRow>
  {
    Map(LeftMatches(lookup, CodeIsOf(EthnicityFirstOf(eth))), PersonRowAt(p, eth, personId))
  }

  function PersonRowsOf(p: Patient, subjects: seq<SubjectEthnicity>, lookup: seq<EthnicityConcept>, ids: Patient -> int)
    : seq<PersonRow>
  {
    FlatMap(LeftMatches(subjects, SubjectIsOf(p.subjectId)),
            (eth: Option<SubjectEthnicity>) => PersonRowsFor(p, eth, lookup, ids(p)))
  }

  /** The INSERT of createPersonCdm: every patient LEFT JOINed with its first ethnicity and that ethnicity's mapping. */
  function PersonCdm(patients: seq<Patient>, subjects: seq<SubjectEthnicity>, lookup: seq<EthnicityConcept>,
                     ids: Patient -> int): seq<PersonRow>
  {
    FlatMap(patients, (p: Patient) => PersonRowsOf(p, subjects, lookup, ids))
  }

  /** gender_concept_id: 8532 for 'F', 8507 for 'M', 0 for anything else, NULL included. */
  predicate PersonGender(r: PersonRow, p: Patient)
  {
    r.genderSourceValue == p.gender && r.genderSourceConceptId == 0 &&
    (p.gender == Some("F") ==> r.genderConceptId == 8532) &&
    (p.gender == Some("M") ==> r.genderConceptId == 8507) &&
    (p.gender != Some("F") && p.gender != Some("M") ==> r.genderConceptId == 0)
  }

  /** The race columns are the mapping's and the ethnicity columns are 0 and NULL. */
  predicate RaceRouted(r: PersonRow, code: Option<string>, m: EthnicityConcept)
  {
    r.raceConceptId == Coalesce(m.targetConceptId, 0) && r.raceSourceConceptId == Coalesce(m.sourceConceptId, 0) &&
    r.raceSourceValue == code &&
    r.ethnicityConceptId == 0 && r.ethnicitySourceConceptId == 0 && r.ethnicitySourceValue.None?
  }

  /** The ethnicity columns are the mapping's and the race columns are 0 and NULL. */
  predicate EthnicityRouted(r: PersonRow, code: Option<string>, m: EthnicityConcept)
  {
    r.ethnicityConceptId == Coalesce(m.targetConceptId, 0) &&
    r.ethnicitySourceConceptId == Coalesce(m.sourceConceptId, 0) && r.ethnicitySourceValue == code &&
    r.raceConceptId == 0 && r.raceSourceConceptId == 0 && r.raceSourceValue.None?
  }

  predicate NothingRouted(r: PersonRow)
  {
    r.raceConceptId == 0 && r.raceSourceConceptId == 0 && r.raceSourceValue.None? &&
    r.ethnicityConceptId == 0 && r.ethnicitySourceConceptId == 0 && r.ethnicitySourceValue.None?
  }

  /**
   * How one mapping row, or its absence, routes the first ethnicity: a target in the Ethnicity
   * vocabulary fills the ethnicity columns, a target in another vocabulary the race columns,
   * and no row or a NULL target vocabulary leaves every race and ethnicity column 0 or NULL.
   */
  predicate RoutedBy(r: PersonRow, code: Option<string>, m: Option<EthnicityConcept>)
  {
    if EthnicityTarget(m) then EthnicityRouted(r, code, m.value)
    else if RaceTarget(m) then RaceRouted(r, code, m.value)
    else NothingRouted(r)
  }

  /**
   * Race versus ethnicity: the row is routed by a lookup row that joins a subject row of the
   * patient, or nothing is routed because the patient has no subject row or a subject row of
   * the patient joins no lookup row.
   */
  ghost predicate PersonRouting(r: PersonRow, p: Patient, subjects: seq<SubjectEthnicity>, lookup: seq<EthnicityConcept>)
  {
    (exists s, m :: s in subjects && s.subjectId == p.subjectId && m in lookup && CodeIs(m, s.ethnicityFirst) &&
                    RoutedBy(r, s.ethnicityFirst, Some(m))) ||
    (NothingRouted(r) &&
     ((forall s :: s in subjects ==> s.subjectId != p.subjectId) ||
      exists s :: s in subjects && s.subjectId == p.subjectId && forall m :: m in lookup ==> !CodeIs(m, s.ethnicityFirst)))
  }

  ghost predicate PersonFrom(r: PersonRow, p: Patient, subjects: seq<SubjectEthnicity>, lookup: seq<EthnicityConcept>,
                             ids: Patient -> int)
  {
    r.personId == ids(p) && r.yearOfBirth == p.anchorYear && r.personSourceValue == Some(IntToText(p.subjectId)) &&
    r.unitId == "person.patients" && r.prov == p.prov && PersonGender(r, p) && PersonRouting(r, p, subjects, lookup)
  }

  lemma PersonRowFrom(p: Patient, subjects: seq<SubjectEthnicity>, lookup: seq<EthnicityConcept>, ids: Patient -> int,
                      eth: Option<SubjectEthnicity>, m: Option<EthnicityConcept>)
    requires eth in LeftMatches(subjects, SubjectIsOf(p.subjectId))
    requires m in LeftMatches(lookup, CodeIsOf(EthnicityFirstOf(eth)))
    ensures PersonFrom(PersonRowOf(p, eth, m, ids(p)), p, subjects, lookup, ids)
  {
    var r := PersonRowOf(p, eth, m, ids(p));
    var eths := LeftMatches(subjects, SubjectIsOf(p.subjectId));
    var ms := LeftMatches(lookup, CodeIsOf(EthnicityFirstOf(eth)));
    if m.Some? {
      assert Some(m.value) in ms;
      assert eth.Some? && Some(eth.value) in eths;
      assert RoutedBy(r, eth.value.ethnicityFirst, m);
    } else if eth.Some? {
      assert Some(eth.value) in eths;
      assert forall x :: x in lookup ==> !CodeIs(x, eth.value.ethnicityFirst);
    } else {
      assert forall x :: x in subjects ==> !SubjectIs(x, p.subjectId);
    }
  }

  lemma PersonRowsForFrom(p: Patient, subjects: seq<SubjectEthnicity>, lookup: seq<EthnicityConcept>, ids: Patient -> int,
                          eth: Option<SubjectEthnicity>)
    requires eth in LeftMatches(subjects, SubjectIsOf(p.subjectId))
    ensures forall r :: r in PersonRowsFor(p, eth, lookup, ids(p)) ==> PersonFrom(r, p, subjects, lookup, ids)
  {
    var ms := LeftMatches(lookup, CodeIsOf(EthnicityFirstOf(eth)));
    forall r | r in PersonRowsFor(p, eth, lookup, ids(p)) ensures PersonFrom(r, p, subjects, lookup, ids) {
      var i :| 0 <= i < |ms| && PersonRowsFor(p, eth, lookup, ids(p))[i] == r;
      PersonRowFrom(p, subjects, lookup, ids, eth, ms[i]);
    }
  }

  lemma PersonRowsOfFrom(p: Patient, subjects: seq<SubjectEthnicity>, lookup: seq<EthnicityConcept>, ids: Patient -> int)
    ensures forall r :: r in PersonRowsOf(p, subjects, lookup, ids) ==> PersonFrom(r, p, subjects, lookup, ids)
    ensures |PersonRowsOf(p, subjects, lookup, ids)| >= 1
  {
    var eths := LeftMatches(subjects, SubjectIsOf(p.subjectId));
    forall r | r in PersonRowsOf(p, subjects, lookup, ids) ensures PersonFrom(r, p, subjects, lookup, ids) {
      var eth :| eth in eths && r in PersonRowsFor(p, eth, lookup, ids(p));
      PersonRowsForFrom(p, subjects, lookup, ids, eth);
    }
    FlatMapKeepsRows(eths, (eth: Option<SubjectEthnicity>) => PersonRowsFor(p, eth, lookup, ids(p)));
  }

  /**
   * cdm_person as createPersonCdm fills it: every row is built from a patient (its id, its
   * subject_id as text, anchor_year as year of birth, its gender concept and its race or
   * ethnicity routing), and every patient has at least one row, the joins being LEFT JOINs.
   */
  lemma PersonCdmRows(patients: seq<Patient>, subjects: seq<SubjectEthnicity>, lookup: seq<EthnicityConcept>,
                      ids: Patient -> int)
    ensures forall r :: r in PersonCdm(patients, subjects, lookup, ids) ==>
              exists p :: p in patients && PersonFrom(r, p, subjects, lookup, ids)
    ensures forall p :: p in patients ==>
              exists r :: r in PersonCdm(patients, subjects, lookup, ids) && PersonFrom(r, p, subjects, lookup, ids)
  {
    forall r | r in PersonCdm(patients, subjects, lookup, ids)
      ensures exists p :: p in patients && PersonFrom(r, p, subjects, lookup, ids)
    {
      var p :| p in patients && r in PersonRowsOf(p, subjects, lookup, ids);
      PersonRowsOfFrom(p, subjects, lookup, ids);
    }
    forall p | p in patients
      ensures exists r :: r in PersonCdm(patients, subjects, lookup, ids) && PersonFrom(r, p, subjects, lookup, ids)
    {
      PersonRowsOfFrom(p, subjects, lookup, ids);
      var r := PersonRowsOf(p, subjects, lookup, ids)[0];
      assert r in PersonRowsOf(p, subjects, lookup, ids);
    }
  }

  /** The row a patient gets from one subject row and one lookup row it joins. */
  lemma PersonRowRoutedBy(p: Patient, subjects: seq<SubjectEthnicity>, lookup: seq<EthnicityConcept>,
                          ids: Patient -> int, s: SubjectEthnicity, m: EthnicityConcept)
    requires s in subjects && s.subjectId == p.subjectId && m in lookup && CodeIs(m, s.ethnicityFirst)
    ensures var r := PersonRowOf(p, Some(s), Some(m), ids(p));
            r in PersonRowsOf(p, subjects, lookup, ids) && PersonFrom(r, p, subjects, lookup, ids) &&
            RoutedBy(r, s.ethnicityFirst, Some(m))
  {
    var eth := Some(s);
    var ms := LeftMatches(lookup, CodeIsOf(EthnicityFirstOf(eth)));
    assert eth in LeftMatches(subjects, SubjectIsOf(p.subjectId));
    assert Some(m) in ms;
    var r := PersonRowOf(p, eth, Some(m), ids(p));
    PersonRowFrom(p, subjects, lookup, ids, eth, Some(m));
    MapMembership(ms, PersonRowAt(p, eth, ids(p)));
    assert r in PersonRowsFor(p, eth, lookup, ids(p));
  }

  /**
   * No mapping is lost: for every patient, every subject row of it and every lookup row its
   * first ethnicity joins, cdm_person has a row of the patient routed by that lookup row.
   */
  lemma PersonRoutingComplete(patients: seq<Patient>, subjects: seq<SubjectEthnicity>, lookup: seq<EthnicityConcept>,
                              ids: Patient -> int)
    ensures forall p, s, m :: p in patients && s in subjects && s.subjectId == p.subjectId && m in lookup &&
                              CodeIs(m, s.ethnicityFirst) ==>
              exists r :: r in PersonCdm(patients, subjects, lookup, ids) && PersonFrom(r, p, subjects, lookup, ids) &&
                          RoutedBy(r, s.ethnicityFirst, Some(m))
  {
    forall p, s, m | p in patients && s in subjects && s.subjectId == p.subjectId && m in lookup &&
                     CodeIs(m, s.ethnicityFirst)
      ensures exists r :: r in PersonCdm(patients, subjects, lookup, ids) && PersonFrom(r, p, subjects, lookup, ids) &&
                          RoutedBy(r, s.ethnicityFirst, Some(m))
    {
      PersonRowRoutedBy(p, subjects, lookup, ids, s, m);
      var r := PersonRowOf(p, Some(s), Some(m), ids(p));
      assert r in PersonCdm(patients, subjects, lookup, ids);
    }
  }

  /** The patient a cdm_person row is built from. */
  lemma PersonCdmSource(patients: seq<Patient>, subjects: seq<SubjectEthnicity>, lookup: seq<EthnicityConcept>,
                        ids: Patient -> int, r: PersonRow)
    returns (p: Patient)
    requires r in PersonCdm(patients, subjects, lookup, ids)
    ensures p in patients && PersonFrom(r, p, subjects, lookup, ids)
  {
    p :| p in patients && r in PersonRowsOf(p, subjects, lookup, ids);
    PersonRowsOfFrom(p, subjects, lookup, ids);
  }

  /** A patient whose first ethnicity names no lookup row gets exactly one row, with nothing routed. */
  lemma UnmappedPatientOneRow(p: Patient, subjects: seq<SubjectEthnicity>, lookup: seq<EthnicityConcept>,
                              ids: Patient -> int)
    requires forall i, j :: 0 <= i < j < |subjects| ==> subjects[i].subjectId != subjects[j].subjectId
    requires forall s, m :: s in subjects && s.subjectId == p.subjectId && m in lookup ==> !CodeIs(m, s.ethnicityFirst)
    ensures |PersonRowsOf(p, subjects, lookup, ids)| == 1
    ensures NothingRouted(PersonRowsOf(p, subjects, lookup, ids)[0])
  {
    var eths := LeftMatches(subjects, SubjectIsOf(p.subjectId));
    var f := (eth: Option<SubjectEthnicity>) => PersonRowsFor(p, eth, lookup, ids(p));
    FilterAtMostOne(subjects, SubjectIsOf(p.subjectId));
    var eth := eths[0];
    assert |eths| == 1;
    var ms := LeftMatches(lookup, CodeIsOf(EthnicityFirstOf(eth)));
    assert ms == [None] by {
      if eth.Some? {
        assert Some(eth.value) in eths;
      }
      assert forall m :: m in lookup ==> !CodeIs(m, EthnicityFirstOf(eth));
    }
    assert eths[1..] == [];
    assert FlatMap(eths, f) == f(eth) + FlatMap(eths[1..], f);
  }

  // ---------------------------------------------------------------------------
  // tmp_person and the final cdm_person

  predicate PeriodOf(op: ObservationPeriod, personId: int)
  {
    op.personId == personId
  }

  function PeriodOfOf(personId: int): ObservationPeriod -> bool
  {
    (op: ObservationPeriod) => PeriodOf(op, personId)
  }

  predicate HasPeriod(per: PersonRow, periods: seq<ObservationPeriod>)
  {
    Filter(periods, PeriodOfOf(per.personId)) != []
  }

  function HasPeriodIn(periods: seq<ObservationPeriod>): PersonRow -> bool
  {
    (per: PersonRow) => HasPeriod(per, periods)
  }

  function PersonAt(per: PersonRow): ObservationPeriod -> PersonRow
  {
    (op: ObservationPeriod) => per
  }

  /** createPersonTemp: SELECT per.* FROM cdm_person JOIN cdm_observation_period ON person_id. */
  function PersonsWithPeriod(persons: seq<PersonRow>, periods: seq<ObservationPeriod>): seq<PersonRow>
  {
    FlatMap(persons, (per: PersonRow) => Map(Filter(periods, PeriodOfOf(per.personId)), PersonAt(per)))
  }

  /** No person has two observation periods. */
  predicate OnePeriodEach(periods: seq<ObservationPeriod>)
  {
    forall i, j :: 0 <= i < j < |periods| ==> periods[i].personId != periods[j].personId
  }

  /** A person is kept exactly when it has an observation period. */
  lemma PersonsWithPeriodRows(persons: seq<PersonRow>, periods: seq<ObservationPeriod>)
    ensures forall per :: per in PersonsWithPeriod(persons, periods) <==> per in persons && HasPeriod(per, periods)
  {
    forall per ensures per in PersonsWithPeriod(persons, periods) <==> per in persons && HasPeriod(per, periods) {
      if per in persons && HasPeriod(per, periods) {
        var ps := Filter(periods, PeriodOfOf(per.personId));
        assert Map(ps, PersonAt(per))[0] == per;
      }
      if per in PersonsWithPeriod(persons, periods) {
        var x :| x in persons && per in Map(Filter(periods, PeriodOfOf(x.personId)), PersonAt(x));
        MapMembership(Filter(periods, PeriodOfOf(x.personId)), PersonAt(x));
      }
    }
  }

  lemma OnePeriodFilter(periods: seq<ObservationPeriod>, id: int)
    requires OnePeriodEach(periods)
    ensures |Filter(periods, PeriodOfOf(id))| <= 1
  {
    FilterAtMostOne(periods, PeriodOfOf(id));
  }

  /** With one observation period per person, the join keeps each person with a period once, in order. */
  lemma {:induction false} PersonsWithOnePeriod(persons: seq<PersonRow>, periods: seq<ObservationPeriod>)
    requires OnePeriodEach(periods)
    ensures PersonsWithPeriod(persons, periods) == Filter(persons, HasPeriodIn(periods))
  {
    if persons != [] {
      var per := persons[0];
      var ps := Filter(periods, PeriodOfOf(per.personId));
      OnePeriodFilter(periods, per.personId);
      PersonsWithOnePeriod(persons[1..], periods);
      if ps != [] {
        assert Map(ps, PersonAt(per)) == [per];
      }
    }
  }

  /** Running the final pass again changes nothing when no person has two observation periods. */
  lemma FinalPassIdempotent(persons: seq<PersonRow>, periods: seq<ObservationPeriod>)
    requires OnePeriodEach(periods)
    ensures PersonsWithPeriod(PersonsWithPeriod(persons, periods), periods) == PersonsWithPeriod(persons, periods)
  {
    PersonsWithOnePeriod(persons, periods);
    PersonsWithOnePeriod(Filter(persons, HasPeriodIn(periods)), periods);
    FilterIdempotent(persons, HasPeriodIn(periods));
  }

  // ---------------------------------------------------------------------------
  // The schema and its in-place stages.

  class PersonTables {
    var cdmPerson: seq<PersonRow>
    var tmpPerson: seq<PersonRow>

    constructor ()
      ensures cdmPerson == [] && tmpPerson == []
    {
      cdmPerson := [];
      tmpPerson := [];
    }

    /** createPersonCdm: cdm_person created empty, then filled from the patients. */
    method CreatePersonCdm(patients: seq<Patient>, subjects: seq<SubjectEthnicity>, lookup: seq<EthnicityConcept>,
                           ids: Patient -> int)
      modifies this`cdmPerson
      ensures cdmPerson == PersonCdm(patients, subjects, lookup, ids)
    {
      var rows := PersonCdm(patients, subjects, lookup, ids);
      cdmPerson := [];
      AppendToEmpty(rows);
      cdmPerson := cdmPerson + rows;
    }

    method CreatePersonTemp(periods: seq<ObservationPeriod>)
      modifies this`tmpPerson
      ensures tmpPerson == PersonsWithPeriod(cdmPerson, periods)
    {
      tmpPerson := PersonsWithPeriod(cdmPerson, periods);
    }

    /** createPerson: cdm_person truncated, then refilled from tmp_person. */
    method CreatePerson()
      modifies this`cdmPerson
      ensures cdmPerson == tmpPerson
    {
      cdmPerson := [];
      cdmPerson := cdmPerson + tmpPerson;
    }

    /** migrate: the subject ethnicities and their lookup, then cdm_person. */
    method Migrate(patients: seq<Patient>, adms: seq<Admission>, concepts: seq<Concept>, rels: seq<ConceptRelationship>,
                   ids: Patient -> int)
      modifies this`cdmPerson
      ensures var subjects := SubjectEthnicityTemp(adms);
              cdmPerson == PersonCdm(patients, subjects, EthnicityLookup(subjects, concepts, rels), ids)
    {
      var subjects := SubjectEthnicityTemp(adms);
      var lookup := EthnicityLookup(subjects, concepts, rels);
      CreatePersonCdm(patients, subjects, lookup, ids);
    }

    /**
     * migrateFinal: cdm_person keeps exactly its rows with an observation period (once per
     * period); tmp_person is dropped.
     */
    method MigrateFinal(periods: seq<ObservationPeriod>)
      modifies this
      ensures cdmPerson == PersonsWithPeriod(old(cdmPerson), periods)
      ensures tmpPerson == []
    {
      CreatePersonTemp(periods);
      CreatePerson();
      tmpPerson := [];
    }
  }
}
