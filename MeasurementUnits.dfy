/**
 * The two small lookups every measurement mapper joins: the value operators
 * (lk_meas_operator_concept) and the units of measurement (tmp_meas_unit,
 * lk_meas_unit_concept).
 */
module MeasurementUnits {
  import opened Sql
  import opened Vocabulary

  // ---------------------------------------------------------------------------
  // lk_meas_operator_concept

  /** A row of lk_meas_operator_concept: the operator's name and its concept. */
  datatype OperatorRow = OperatorRow(sourceCode: string, targetConceptId: int)

  predicate IsOperatorConcept(c: Concept)
  {
    c.domainId == "Meas Value Operator"
  }

  function OperatorOf(c: Concept): OperatorRow
  {
    OperatorRow(c.conceptName, c.conceptId)
  }

  /** createMeasurementOperatorConcept: every 'Meas Value Operator' concept, keyed by its name. */
  function OperatorConcept(concepts: seq<Concept>): seq<OperatorRow>
  {
    Map(Filter(concepts, IsOperatorConcept), OperatorOf)
  }

  /** The operator lookup holds a row for each operator concept and for nothing else. */
  lemma OperatorRows(concepts: seq<Concept>)
    ensures |OperatorConcept(concepts)| == Count(concepts, IsOperatorConcept)
    ensures forall o :: o in OperatorConcept(concepts) <==>
                          exists c :: c in concepts && IsOperatorConcept(c) && o == OperatorOf(c)
  {
    MapMembership(Filter(concepts, IsOperatorConcept), OperatorOf);
  }

  predicate OperatorNamed(o: OperatorRow, code: Option<string>)
  {
    SqlEq(Some(o.sourceCode), code)
  }

  /** LEFT JOIN lk_meas_operator_concept opc ON opc.source_code = code. */
  function OperatorMatches(ops: seq<OperatorRow>, code: Option<string>): seq<Option<OperatorRow>>
  {
    LeftMatches(ops, (o: OperatorRow) => OperatorNamed(o, code))
  }

  /** opc.target_concept_id of an operator join row: NULL when the join found none. */
  function OperatorConceptId(o: Option<OperatorRow>): Option<int>
  {
    if o.Some? then Some(o.value.targetConceptId) else None
  }

  // ---------------------------------------------------------------------------
  // tmp_meas_unit: one unit concept per concept_code.

  /** vocabulary_id IN ('UCUM', 'mimiciv_meas_unit', 'mimiciv_meas_wf_unit') AND domain_id = 'Unit' */
  predicate IsUnitCandidate(c: Concept)
  {
    (c.vocabularyId == "UCUM" || c.vocabularyId == "mimiciv_meas_unit" || c.vocabularyId == "mimiciv_meas_wf_unit")
    && c.domainId == "Unit"
  }

  /** The ORDER BY key of the de-duplication: UPPER(vocabulary_id). */
  function UnitKey(c: Concept): string
  {
    Upper(c.vocabularyId)
  }

  /**
   * Candidate i comes no later than candidate j in the window's order: a smaller key, or an
   * equal key and no later position (ROW_NUMBER's tie, resolved by table order).
   */
  predicate Before(cands: seq<Concept>, i: nat, j: nat)
    requires i < |cands| && j < |cands|
  {
    StrLt(UnitKey(cands[i]), UnitKey(cands[j])) || (UnitKey(cands[i]) == UnitKey(cands[j]) && i <= j)
  }

  /** The candidate numbered 1 in the partition of `code` among the first k candidates, if any. */
  function BestBelow(cands: seq<Concept>, code: string, k: nat): (b: Option<nat>)
    requires k <= |cands|
    ensures b.Some? ==> b.value < k && cands[b.value].conceptCode == code
  {
    if k == 0 then None
    else
      var p := BestBelow(cands, code, k - 1);
      if cands[k - 1].conceptCode != code then p
      else if p.None? then Some(k - 1)
      else if StrLt(UnitKey(cands[k - 1]), UnitKey(cands[p.value])) then Some(k - 1)
      else p
  }

  /** The candidate BestBelow picks comes before every other candidate of its code; with none picked there is none. */
  lemma {:induction false} BestBelowIsFirst(cands: seq<Concept>, code: string, k: nat)
    requires k <= |cands|
    ensures var b := BestBelow(cands, code, k);
            b.Some? ==> forall j :: 0 <= j < k && cands[j].conceptCode == code ==> Before(cands, b.value, j)
    ensures BestBelow(cands, code, k).None? ==> forall j :: 0 <= j < k ==> cands[j].conceptCode != code
  {
    if k > 0 {
      BestBelowIsFirst(cands, code, k - 1);
      var p := BestBelow(cands, code, k - 1);
      var n := k - 1;
      StrLeTotal(UnitKey(cands[n]), UnitKey(cands[n]));
      if cands[n].conceptCode == code && p.Some? {
        var q := p.value;
        StrLeTotal(UnitKey(cands[n]), UnitKey(cands[q]));
        if StrLt(UnitKey(cands[n]), UnitKey(cands[q])) {
          forall j | 0 <= j < n && cands[j].conceptCode == code ensures Before(cands, n, j) {
            StrLeTotal(UnitKey(cands[q]), UnitKey(cands[j]));
            StrLtTrans(UnitKey(cands[n]), UnitKey(cands[q]), UnitKey(cands[j]));
          }
        }
      }
    }
  }

  /** row_num = 1: candidate i is the first of its concept_code. */
  predicate IsFirstOfCode(cands: seq<Concept>, i: nat)
    requires i < |cands|
  {
    BestBelow(cands, cands[i].conceptCode, |cands|) == Some(i)
  }

  /** The candidates among the first k that are numbered 1, in table order. */
  function FirstOfCodes(cands: seq<Concept>, k: nat): (r: seq<Concept>)
    requires k <= |cands|
    ensures forall x :: 0 <= x < |r| ==> exists i :: 0 <= i < k && IsFirstOfCode(cands, i) && r[x] == cands[i]
    ensures forall i :: 0 <= i < k && IsFirstOfCode(cands, i) ==> cands[i] in r
    ensures forall x, y :: 0 <= x < y < |r| ==> r[x].conceptCode != r[y].conceptCode
  {
    if k == 0 then []
    else
      var p := FirstOfCodes(cands, k - 1);
      if IsFirstOfCode(cands, k - 1) then
        assert forall x :: 0 <= x < |p| ==> p[x].conceptCode != cands[k - 1].conceptCode;
        p + [cands[k - 1]]
      else p
  }

  function UnitCandidates(concepts: seq<Concept>): seq<Concept>
  {
    Filter(concepts, IsUnitCandidate)
  }

  /** tmp_meas_unit WHERE row_num = 1. */
  function UnitTemp(concepts: seq<Concept>): seq<Concept>
  {
    FirstOfCodes(UnitCandidates(concepts), |UnitCandidates(concepts)|)
  }

  /** Each de-duplicated unit is a unit concept of the three unit vocabularies. */
  lemma UnitTempSound(concepts: seq<Concept>, u: Concept)
    requires u in UnitTemp(concepts)
    ensures u in concepts && IsUnitCandidate(u)
  {
    var cands := UnitCandidates(concepts);
    var r := UnitTemp(concepts);
    var x :| 0 <= x < |r| && r[x] == u;
    var i :| 0 <= i < |cands| && IsFirstOfCode(cands, i) && u == cands[i];
    assert cands[i] in cands;
  }

  /**
   * No two de-duplicated units share a concept_code, and every unit concept's code is kept
   * through a concept whose UPPER(vocabulary_id) does not come after its own.
   */
  lemma UnitTempOnePerCode(concepts: seq<Concept>, c: Concept)
    requires c in concepts && IsUnitCandidate(c)
    ensures var r := UnitTemp(concepts);
            forall x, y :: 0 <= x < y < |r| ==> r[x].conceptCode != r[y].conceptCode
    ensures exists u :: u in UnitTemp(concepts) && u.conceptCode == c.conceptCode && StrLe(UnitKey(u), UnitKey(c))
  {
    var cands := UnitCandidates(concepts);
    assert c in cands;
    var j :| 0 <= j < |cands| && cands[j] == c;
    var b := BestBelow(cands, c.conceptCode, |cands|);
    BestBelowIsFirst(cands, c.conceptCode, |cands|);
    assert Before(cands, b.value, j);
    StrLeTotal(UnitKey(c), UnitKey(c));
    assert IsFirstOfCode(cands, b.value);
    assert cands[b.value] in UnitTemp(concepts);
  }

  // ---------------------------------------------------------------------------
  // lk_meas_unit_concept

  /** A row of lk_meas_unit_concept. */
  datatype UnitConceptRow = UnitConceptRow(
    sourceCode: string,
    sourceVocabularyId: string,
    sourceDomainId: string,
    sourceConceptId: int,
    targetDomainId: Option<string>,
    targetConceptId: Option<int>)

  function UnitRowOf(c: Concept, t: Option<Concept>): UnitConceptRow
  {
    UnitConceptRow(c.conceptCode, c.vocabularyId, c.domainId, c.conceptId,
                   if t.Some? then Some(t.value.domainId) else None,
                   if t.Some? then Some(t.value.conceptId) else None)
  }

  function UnitTargets(c: Concept, concepts: seq<Concept>, rels: seq<ConceptRelationship>): seq<UnitConceptRow>
  {
    Map(Targets(c, rels, concepts, IsValid), (t: Option<Concept>) => UnitRowOf(c, t))
  }

  /**
   * createMeasurementUnitConcept: each kept unit LEFT JOINed through 'Maps to' to a target
   * whose invalid_reason is NULL; the target need not be standard.
   */
  function UnitConcept(concepts: seq<Concept>, rels: seq<ConceptRelationship>): seq<UnitConceptRow>
  {
    FlatMap(UnitTemp(concepts), (c: Concept) => UnitTargets(c, concepts, rels))
  }

  /** Every unit row comes from a kept unit concept, and a target it names is a valid concept reached by 'Maps to'. */
  lemma UnitConceptSound(concepts: seq<Concept>, rels: seq<ConceptRelationship>, u: UnitConceptRow)
    requires u in UnitConcept(concepts, rels)
    ensures exists c :: c in UnitTemp(concepts) && u.sourceCode == c.conceptCode && u.sourceConceptId == c.conceptId &&
                        (u.targetConceptId.None? ||
                         exists t :: t in concepts && IsValid(t) && Reaches(c, t, rels) && u == UnitRowOf(c, Some(t)))
  {
    var c :| c in UnitTemp(concepts) && u in UnitTargets(c, concepts, rels);
    var t := MapSource(Targets(c, rels, concepts, IsValid), (t: Option<Concept>) => UnitRowOf(c, t), u);
    if t.Some? {
      TargetsSound(c, rels, concepts, IsValid);
      assert t.value in concepts && IsValid(t.value) && Reaches(c, t.value, rels);
    }
  }

  /** Every valid concept a kept unit maps to is a target of that unit, whether standard or not. */
  lemma UnitConceptComplete(concepts: seq<Concept>, rels: seq<ConceptRelationship>, c: Concept, t: Concept)
    requires c in UnitTemp(concepts) && t in concepts && IsValid(t) && Reaches(c, t, rels)
    ensures UnitRowOf(c, Some(t)) in UnitConcept(concepts, rels)
  {
    TargetsComplete(c, t, rels, concepts, IsValid);
    MapMembership(Targets(c, rels, concepts, IsValid), (t: Option<Concept>) => UnitRowOf(c, t));
    assert UnitRowOf(c, Some(t)) in UnitTargets(c, concepts, rels);
  }

  predicate UnitNamed(u: UnitConceptRow, uom: Option<string>)
  {
    SqlEq(Some(u.sourceCode), uom)
  }

  /** LEFT JOIN lk_meas_unit_concept uc ON uc.source_code = uom. */
  function UnitMatches(units: seq<UnitConceptRow>, uom: Option<string>): seq<Option<UnitConceptRow>>
  {
    LeftMatches(units, (u: UnitConceptRow) => UnitNamed(u, uom))
  }

  /** A valueuom no unit is named by joins the all-NULL row alone. */
  lemma UnitMatchesNone(units: seq<UnitConceptRow>, uom: Option<string>)
    requires uom.None? || forall u :: u in units ==> u.sourceCode != uom.value
    ensures UnitMatches(units, uom) == [None]
  {
    assert forall u :: u in units ==> !UnitNamed(u, uom);
  }

  /** A table of one unit named by valueuom joins that unit. */
  lemma UnitMatchesOne(u: UnitConceptRow, uom: Option<string>)
    requires uom == Some(u.sourceCode)
    ensures UnitMatches([u], uom) == [Some(u)]
  {
    assert Filter([u], (x: UnitConceptRow) => UnitNamed(x, uom)) == [u];
  }

  /**
   * CASE WHEN uom IS NOT NULL THEN COALESCE(uc.target_concept_id, 0) END: NULL without a unit,
   * the unit's target when it has one, and 0 for a unit that maps to nothing.
   */
  function UnitConceptId(uom: Option<string>, uc: Option<UnitConceptRow>): (r: Option<int>)
    ensures uom.None? <==> r.None?
    ensures uom.Some? && uc.Some? && uc.value.targetConceptId.Some? ==> r == uc.value.targetConceptId
    ensures uom.Some? && (uc.None? || uc.value.targetConceptId.None?) ==> r == Some(0)
  {
    if uom.Some? then Some(Coalesce(if uc.Some? then uc.value.targetConceptId else None, 0)) else None
  }
}
