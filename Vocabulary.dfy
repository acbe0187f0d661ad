/**
 * The OMOP vocabulary tables the migration reads and rebuilds, and the one
 * code-resolution pattern every mapper repeats:
 *
 *   source row
 *     LEFT JOIN concept vc               ON <the source row's code matches vc>
 *     LEFT JOIN concept_relationship vcr ON vc.concept_id = vcr.concept_id_1
 *                                       AND vcr.relationship_id = 'Maps to'
 *     LEFT JOIN concept vc2              ON vc2.concept_id = vcr.concept_id_2
 *                                       AND <vc2 is an acceptable target>
 *
 * `Resolve` is that chain, written once; the mappers pass in what "matches"
 * and "acceptable" mean for them.
 */
module Vocabulary {
  import opened Sql

  datatype Concept = Concept(
    conceptId: int,
    conceptName: string,
    domainId: string,
    vocabularyId: string,
    conceptClassId: string,
    standardConcept: Option<string>,
    conceptCode: string,
    validStartDate: Date,
    validEndDate: Date,
    invalidReason: Option<string>,
    loadTableId: Option<string>,
    loadRowId: Option<int>)

  datatype ConceptRelationship = ConceptRelationship(
    conceptId1: int,
    conceptId2: int,
    relationshipId: string,
    validStartDate: Date,
    validEndDate: Date,
    invalidReason: Option<string>,
    loadTableId: Option<string>,
    loadRowId: Option<int>)

  datatype VocabularyRow = VocabularyRow(
    vocabularyId: string,
    vocabularyName: string,
    vocabularyReference: string,
    vocabularyVersion: Option<string>,
    vocabularyConceptId: int,
    loadTableId: Option<string>,
    loadRowId: Option<int>)

  /** standard_concept = 'S' AND invalid_reason IS NULL: a target every mapper but the unit lookup demands. */
  predicate IsStandardValid(c: Concept)
  {
    c.standardConcept == Some("S") && c.invalidReason.None?
  }

  /** invalid_reason IS NULL: the only demand the unit lookup makes of a target. */
  predicate IsValid(c: Concept)
  {
    c.invalidReason.None?
  }

  /** The relationship row is a 'Maps to' edge from c to t. */
  predicate IsMapsTo(r: ConceptRelationship, c: Concept, t: Concept)
  {
    r.conceptId1 == c.conceptId && r.relationshipId == "Maps to" && r.conceptId2 == t.conceptId
  }

  /** Some 'Maps to' edge leads from c to t. */
  ghost predicate Reaches(c: Concept, t: Concept, rels: seq<ConceptRelationship>)
  {
    exists r :: r in rels && IsMapsTo(r, c, t)
  }

  /** The source match has somewhere to go: an acceptable concept that a 'Maps to' edge from a matching source reaches. */
  ghost predicate HasTarget(concepts: seq<Concept>, rels: seq<ConceptRelationship>,
                            sourceOk: Concept -> bool, targetOk: Concept -> bool)
  {
    exists c, t :: c in concepts && sourceOk(c) && t in concepts && targetOk(t) && Reaches(c, t, rels)
  }

  /** vc.concept_code = code AND vc.vocabulary_id = vocabularyId: the source match of most lookups. */
  predicate HasCode(c: Concept, code: Option<string>, vocabularyId: string)
  {
    SqlEq(Some(c.conceptCode), code) && c.vocabularyId == vocabularyId
  }

  function CodeMatch(code: Option<string>, vocabularyId: string): Concept -> bool
  {
    (c: Concept) => HasCode(c, code, vocabularyId)
  }

  /** The first LEFT JOIN of the chain: the 'Maps to' edges leaving c. */
  function MapsToEdges(c: Concept, rels: seq<ConceptRelationship>): seq<Option<ConceptRelationship>>
  {
    LeftMatches(rels, (r: ConceptRelationship) => r.conceptId1 == c.conceptId && r.relationshipId == "Maps to")
  }

  /** The second LEFT JOIN: the acceptable concepts one edge (or NULL) leads to. */
  function EdgeTargets(e: Option<ConceptRelationship>, concepts: seq<Concept>, targetOk: Concept -> bool)
    : seq<Option<Concept>>
  {
    match e
    case None => [None]
    case Some(r) => LeftMatches(concepts, (t: Concept) => t.conceptId == r.conceptId2 && targetOk(t))
  }

  /** The targets of a source concept: the two LEFT JOINs after it. */
  function Targets(c: Concept, rels: seq<ConceptRelationship>, concepts: seq<Concept>, targetOk: Concept -> bool)
    : seq<Option<Concept>>
  {
    FlatMap(MapsToEdges(c, rels), (e: Option<ConceptRelationship>) => EdgeTargets(e, concepts, targetOk))
  }

  /** One row of the chain's result: the source concept vc and the target vc2, either of which may be NULL. */
  datatype Resolution = Resolution(source: Option<Concept>, target: Option<Concept>)

  function ResolveSource(s: Option<Concept>, rels: seq<ConceptRelationship>, concepts: seq<Concept>,
                         targetOk: Concept -> bool): seq<Resolution>
  {
    match s
    case None => [Resolution(None, None)]
    case Some(c) => Map(Targets(c, rels, concepts, targetOk), (t: Option<Concept>) => Resolution(Some(c), t))
  }

  /** Every row the chain gives for one source row carries that source row. */
  lemma ResolveSourceKeepsSource(s: Option<Concept>, rels: seq<ConceptRelationship>, concepts: seq<Concept>,
                                 targetOk: Concept -> bool, r: Resolution)
    requires r in ResolveSource(s, rels, concepts, targetOk)
    ensures r.source == s
  {
    if s.Some? {
      MapMembership(Targets(s.value, rels, concepts, targetOk), (t: Option<Concept>) => Resolution(s, t));
    }
  }

  /** The whole chain for one source row whose code matches the concepts satisfying sourceOk. */
  function Resolve(concepts: seq<Concept>, rels: seq<ConceptRelationship>,
                   sourceOk: Concept -> bool, targetOk: Concept -> bool): seq<Resolution>
  {
    FlatMap(LeftMatches(concepts, sourceOk),
            (s: Option<Concept>) => ResolveSource(s, rels, concepts, targetOk))
  }

  // The columns the lookup tables take from a resolution.

  function SourceConceptId(r: Resolution): Option<int>
  {
    if r.source.Some? then Some(r.source.value.conceptId) else None
  }

  function SourceDomainId(r: Resolution): Option<string>
  {
    if r.source.Some? then Some(r.source.value.domainId) else None
  }

  function SourceVocabularyId(r: Resolution): Option<string>
  {
    if r.source.Some? then Some(r.source.value.vocabularyId) else None
  }

  function TargetConceptId(r: Resolution): Option<int>
  {
    if r.target.Some? then Some(r.target.value.conceptId) else None
  }

  function TargetDomainId(r: Resolution): Option<string>
  {
    if r.target.Some? then Some(r.target.value.domainId) else None
  }

  function TargetVocabularyId(r: Resolution): Option<string>
  {
    if r.target.Some? then Some(r.target.value.vocabularyId) else None
  }

  // ---------------------------------------------------------------------------
  // What the chain yields.

  /** A target of c is an acceptable concept that a 'Maps to' edge from c reaches. */
  lemma TargetsSound(c: Concept, rels: seq<ConceptRelationship>, concepts: seq<Concept>, targetOk: Concept -> bool)
    ensures forall t :: Some(t) in Targets(c, rels, concepts, targetOk) ==>
                          t in concepts && targetOk(t) && Reaches(c, t, rels)
  {
    var edges := MapsToEdges(c, rels);
    forall t | Some(t) in Targets(c, rels, concepts, targetOk)
      ensures t in concepts && targetOk(t) && Reaches(c, t, rels)
    {
      var e :| e in edges && Some(t) in EdgeTargets(e, concepts, targetOk);
      assert e.Some? && IsMapsTo(e.value, c, t);
    }
  }

  /** Every acceptable concept that a 'Maps to' edge from c reaches is a target of c. */
  lemma TargetsComplete(c: Concept, t: Concept, rels: seq<ConceptRelationship>, concepts: seq<Concept>,
                        targetOk: Concept -> bool)
    requires t in concepts && targetOk(t) && Reaches(c, t, rels)
    ensures Some(t) in Targets(c, rels, concepts, targetOk)
  {
    var r :| r in rels && IsMapsTo(r, c, t);
    assert Some(r) in MapsToEdges(c, rels);
    assert Some(t) in EdgeTargets(Some(r), concepts, targetOk);
  }

  /** The LEFT JOINs never lose the source concept: it resolves to at least one row. */
  lemma TargetsNonEmpty(c: Concept, rels: seq<ConceptRelationship>, concepts: seq<Concept>, targetOk: Concept -> bool)
    ensures |Targets(c, rels, concepts, targetOk)| >= 1
  {
    var edges := MapsToEdges(c, rels);
    var f := (e: Option<ConceptRelationship>) => EdgeTargets(e, concepts, targetOk);
    FlatMapKeepsRows(edges, f);
  }

  /** The rows of the chain are exactly the source matches paired with their targets, and a source without a match gives one all-NULL row. */
  lemma ResolveMembership(concepts: seq<Concept>, rels: seq<ConceptRelationship>,
                          sourceOk: Concept -> bool, targetOk: Concept -> bool)
    ensures forall c, t :: Resolution(Some(c), t) in Resolve(concepts, rels, sourceOk, targetOk) <==>
              c in concepts && sourceOk(c) && t in Targets(c, rels, concepts, targetOk)
    ensures forall t :: Resolution(None, t) in Resolve(concepts, rels, sourceOk, targetOk) <==>
              t.None? && (forall c :: c in concepts ==> !sourceOk(c))
  {
    forall c, t ensures Resolution(Some(c), t) in Resolve(concepts, rels, sourceOk, targetOk) <==>
                        c in concepts && sourceOk(c) && t in Targets(c, rels, concepts, targetOk)
    {
      ResolveSomeRow(concepts, rels, sourceOk, targetOk, c, t);
    }
    forall t ensures Resolution(None, t) in Resolve(concepts, rels, sourceOk, targetOk) <==>
                     t.None? && (forall c :: c in concepts ==> !sourceOk(c))
    {
      ResolveNoneRow(concepts, rels, sourceOk, targetOk, t);
    }
  }

  lemma ResolveSomeRow(concepts: seq<Concept>, rels: seq<ConceptRelationship>,
                       sourceOk: Concept -> bool, targetOk: Concept -> bool, c: Concept, t: Option<Concept>)
    ensures Resolution(Some(c), t) in Resolve(concepts, rels, sourceOk, targetOk) <==>
            c in concepts && sourceOk(c) && t in Targets(c, rels, concepts, targetOk)
  {
    var sources := LeftMatches(concepts, sourceOk);
    var r := Resolution(Some(c), t);
    if r in Resolve(concepts, rels, sourceOk, targetOk) {
      var s :| s in sources && r in ResolveSource(s, rels, concepts, targetOk);
      ResolveSourceKeepsSource(s, rels, concepts, targetOk, r);
      var t' := MapSource(Targets(c, rels, concepts, targetOk), (t: Option<Concept>) => Resolution(Some(c), t), r);
      assert t' == t;
    }
    if c in concepts && sourceOk(c) && t in Targets(c, rels, concepts, targetOk) {
      MapMembership(Targets(c, rels, concepts, targetOk), (t: Option<Concept>) => Resolution(Some(c), t));
      assert r in ResolveSource(Some(c), rels, concepts, targetOk);
      assert Some(c) in sources;
    }
  }

  lemma ResolveNoneRow(concepts: seq<Concept>, rels: seq<ConceptRelationship>,
                       sourceOk: Concept -> bool, targetOk: Concept -> bool, t: Option<Concept>)
    ensures Resolution(None, t) in Resolve(concepts, rels, sourceOk, targetOk) <==>
            t.None? && (forall c :: c in concepts ==> !sourceOk(c))
  {
    var sources := LeftMatches(concepts, sourceOk);
    var r := Resolution(None, t);
    if r in Resolve(concepts, rels, sourceOk, targetOk) {
      var s :| s in sources && r in ResolveSource(s, rels, concepts, targetOk);
      ResolveSourceKeepsSource(s, rels, concepts, targetOk, r);
    }
    if t.None? && (forall c :: c in concepts ==> !sourceOk(c)) {
      assert None in sources;
      assert r in ResolveSource(None, rels, concepts, targetOk);
    }
  }

  /** A source row is never lost by the chain, and a source row that matches nothing yields exactly one all-NULL row. */
  lemma ResolveNonEmpty(concepts: seq<Concept>, rels: seq<ConceptRelationship>,
                        sourceOk: Concept -> bool, targetOk: Concept -> bool)
    ensures |Resolve(concepts, rels, sourceOk, targetOk)| >= 1
    ensures (forall c :: c in concepts ==> !sourceOk(c)) ==>
              Resolve(concepts, rels, sourceOk, targetOk) == [Resolution(None, None)]
  {
    var sources := LeftMatches(concepts, sourceOk);
    var f := (s: Option<Concept>) => ResolveSource(s, rels, concepts, targetOk);
    forall s | s in sources ensures |f(s)| >= 1 {
      if s.Some? {
        TargetsNonEmpty(s.value, rels, concepts, targetOk);
      }
    }
    FlatMapKeepsRows(sources, f);
    if forall c :: c in concepts ==> !sourceOk(c) {
      assert sources == [None];
      assert FlatMap(sources, f) == f(None) + FlatMap(sources[1..], f);
    }
  }

  /** A resolved target is acceptable and reached by a 'Maps to' edge from the resolved source, which matches the row. */
  lemma ResolveSound(concepts: seq<Concept>, rels: seq<ConceptRelationship>,
                     sourceOk: Concept -> bool, targetOk: Concept -> bool)
    ensures forall r :: r in Resolve(concepts, rels, sourceOk, targetOk) ==>
              (r.source.Some? ==> r.source.value in concepts && sourceOk(r.source.value)) &&
              (r.target.Some? ==> r.source.Some? && r.target.value in concepts && targetOk(r.target.value)
                                  && Reaches(r.source.value, r.target.value, rels))
  {
    ResolveMembership(concepts, rels, sourceOk, targetOk);
    forall r | r in Resolve(concepts, rels, sourceOk, targetOk)
      ensures (r.source.Some? ==> r.source.value in concepts && sourceOk(r.source.value)) &&
              (r.target.Some? ==> r.source.Some? && r.target.value in concepts && targetOk(r.target.value)
                                  && Reaches(r.source.value, r.target.value, rels))
    {
      assert r == Resolution(r.source, r.target);
      if r.source.Some? {
        TargetsSound(r.source.value, rels, concepts, targetOk);
      }
    }
  }

  /** ResolveSound for one row of the chain. */
  lemma ResolveRowSound(concepts: seq<Concept>, rels: seq<ConceptRelationship>,
                        sourceOk: Concept -> bool, targetOk: Concept -> bool, r: Resolution)
    requires r in Resolve(concepts, rels, sourceOk, targetOk)
    ensures r.source.Some? ==> r.source.value in concepts && sourceOk(r.source.value)
    ensures r.target.Some? ==> r.source.Some? && r.target.value in concepts && targetOk(r.target.value)
                               && Reaches(r.source.value, r.target.value, rels)
  {
    ResolveSound(concepts, rels, sourceOk, targetOk);
  }

  /** Every acceptable target reachable from a matching source appears in the chain's result. */
  lemma ResolveComplete(concepts: seq<Concept>, rels: seq<ConceptRelationship>,
                        sourceOk: Concept -> bool, targetOk: Concept -> bool, c: Concept, t: Concept)
    requires c in concepts && sourceOk(c) && t in concepts && targetOk(t) && Reaches(c, t, rels)
    ensures Resolution(Some(c), Some(t)) in Resolve(concepts, rels, sourceOk, targetOk)
  {
    TargetsComplete(c, t, rels, concepts, targetOk);
    ResolveMembership(concepts, rels, sourceOk, targetOk);
  }

  /**
   * The unmapped sentinel: the chain resolves a row to no target at all exactly when no
   * matching source concept reaches an acceptable one by a 'Maps to' edge.
   */
  lemma ResolveUnmapped(concepts: seq<Concept>, rels: seq<ConceptRelationship>,
                        sourceOk: Concept -> bool, targetOk: Concept -> bool)
    ensures (forall r :: r in Resolve(concepts, rels, sourceOk, targetOk) ==> r.target.None?) <==>
              !HasTarget(concepts, rels, sourceOk, targetOk)
  {
    ResolveSound(concepts, rels, sourceOk, targetOk);
    if HasTarget(concepts, rels, sourceOk, targetOk) {
      var c, t :| c in concepts && sourceOk(c) && t in concepts && targetOk(t) && Reaches(c, t, rels);
      ResolveComplete(concepts, rels, sourceOk, targetOk, c, t);
    }
  }
}
