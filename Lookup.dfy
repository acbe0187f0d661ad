/**
 * The merge of the custom vocabulary into the lookup schema (importCustomVocabulary).
 *
 * tmp_custom_mapping, the CSV of custom mappings the concept mapper produces, is
 * turned into custom concepts, a forward and a reverse relationship per mapped
 * row, and one custom vocabulary per source vocabulary. The concept,
 * concept_relationship and vocabulary tables are then rebuilt: their reference
 * part (ids below 2000000000) is kept and the custom part is appended.
 *
 * The four CREATE TABLE AS SELECT stages are functions; the stages that append
 * to a table with INSERT INTO are methods of `LookupSchema`, whose fields are the
 * tables of the schema.
 */
module Lookup {
  import opened Sql
  import opened Vocabulary

  /** Ids from here on belong to custom concepts and vocabularies. */
  const CustomIdStart := 2000000000

  /** The base of the custom vocabulary concept ids. */
  const VocabularyIdBase := 2110000001

  /** A row of tmp_custom_mapping, as loaded from the CSV (dates already parsed). */
  datatype MappingRow = MappingRow(
    sourceConceptId: int,
    conceptName: string,
    sourceDomainId: string,
    sourceVocabularyId: string,
    sourceConceptClassId: string,
    standardConcept: Option<string>,
    conceptCode: string,
    validStartDate: Date,
    validEndDate: Date,
    invalidReason: Option<string>,
    relationshipId: string,
    reverseRelationshipId: string,
    invalidReasonCr: Option<string>,
    relationshipValidStartDate: Date,
    relationshipEndDate: Date,
    targetConceptId: Option<int>)

  // ---------------------------------------------------------------------------
  // tmp_custom_concept

  /** The concept a mapping row describes: 'S' when it maps to 0, else its own standard_concept. */
  function CustomConceptOf(m: MappingRow): Concept
  {
    Concept(m.sourceConceptId, m.conceptName, m.sourceDomainId, m.sourceVocabularyId, m.sourceConceptClassId,
            if m.targetConceptId == Some(0) then Some("S") else m.standardConcept,
            m.conceptCode, m.validStartDate, m.validEndDate, m.invalidReason,
            Some("tmp_custom_mapping"), None)
  }

  /** createTmpCustomConcept: the GROUP BY over every output column, one row per distinct concept. */
  function TmpCustomConcept(mapping: seq<MappingRow>): seq<Concept>
  {
    Distinct(Map(mapping, CustomConceptOf))
  }

  /**
   * Every custom concept comes from a mapping row and every mapping row yields one,
   * identical rows yield one concept, and standard_concept is 'S' exactly for the rows
   * mapped to 0 (otherwise the row's own value).
   */
  lemma CustomConcepts(mapping: seq<MappingRow>)
    ensures forall c :: c in TmpCustomConcept(mapping) <==> exists m :: m in mapping && c == CustomConceptOf(m)
    ensures var t := TmpCustomConcept(mapping); forall i, j :: 0 <= i < j < |t| ==> t[i] != t[j]
    ensures forall m :: m in mapping ==>
              exists c :: c in TmpCustomConcept(mapping) && c.conceptId == m.sourceConceptId &&
                c.conceptName == m.conceptName && c.conceptCode == m.conceptCode &&
                (m.targetConceptId == Some(0) ==> c.standardConcept == Some("S")) &&
                (m.targetConceptId != Some(0) ==> c.standardConcept == m.standardConcept)
  {
    MapMembership(mapping, CustomConceptOf);
    forall m | m in mapping
      ensures CustomConceptOf(m) in TmpCustomConcept(mapping)
    {
    }
  }

  // ---------------------------------------------------------------------------
  // tmp_custom_concept_relationship

  predicate HasTarget(m: MappingRow)
  {
    m.targetConceptId.Some?
  }

  /** The target end of a mapped row: the source itself when it maps to 0. */
  function TargetEnd(m: MappingRow): int
  {
    match m.targetConceptId
    case Some(t) => if t == 0 then m.sourceConceptId else t
    case None => m.sourceConceptId
  }

  function ForwardEdge(m: MappingRow): ConceptRelationship
  {
    ConceptRelationship(m.sourceConceptId, TargetEnd(m), m.relationshipId,
                        m.relationshipValidStartDate, m.relationshipEndDate, m.invalidReasonCr,
                        Some("tmp_custom_mapping"), None)
  }

  function ReverseEdge(m: MappingRow): ConceptRelationship
  {
    ConceptRelationship(TargetEnd(m), m.sourceConceptId, m.reverseRelationshipId,
                        m.relationshipValidStartDate, m.relationshipEndDate, m.invalidReasonCr,
                        Some("tmp_custom_mapping"), None)
  }

  /** The rows with a target, the only ones that yield edges. */
  function Mapped(mapping: seq<MappingRow>): (r: seq<MappingRow>)
    ensures forall m :: m in r ==> HasTarget(m)
  {
    Filter(mapping, HasTarget)
  }

  /** createTmpCustomConceptRelationship: the forward edges UNION ALL the reverse edges. */
  function TmpCustomConceptRelationship(mapping: seq<MappingRow>): seq<ConceptRelationship>
  {
    var mapped := Mapped(mapping);
    Map(mapped, ForwardEdge) + Map(mapped, ReverseEdge)
  }

  /** Exactly two edges per mapping row with a non-null target, and none for the others. */
  lemma EdgeCount(mapping: seq<MappingRow>)
    ensures |TmpCustomConceptRelationship(mapping)| == 2 * Count(mapping, HasTarget)
  {
  }

  /**
   * The edges are exactly the forward and reverse edges of the rows with a target; every
   * forward edge has its reverse, with the endpoints swapped; and a row mapped to 0
   * yields two self-loops on its source id.
   */
  lemma EdgesOfMappedRows(mapping: seq<MappingRow>)
    ensures forall e :: e in TmpCustomConceptRelationship(mapping) <==>
              exists m :: m in mapping && HasTarget(m) && (e == ForwardEdge(m) || e == ReverseEdge(m))
    ensures forall m :: m in mapping && HasTarget(m) ==>
              var f := ForwardEdge(m);
              var r := ReverseEdge(m);
              f in TmpCustomConceptRelationship(mapping) && r in TmpCustomConceptRelationship(mapping) &&
              f.conceptId1 == r.conceptId2 && f.conceptId2 == r.conceptId1 &&
              f.conceptId1 == m.sourceConceptId && f.relationshipId == m.relationshipId &&
              r.relationshipId == m.reverseRelationshipId &&
              (m.targetConceptId.value != 0 ==> f.conceptId2 == m.targetConceptId.value) &&
              (m.targetConceptId.value == 0 ==> f.conceptId2 == m.sourceConceptId && r.conceptId1 == m.sourceConceptId)
  {
    var mapped := Mapped(mapping);
    var fs := Map(mapped, ForwardEdge);
    var rs := Map(mapped, ReverseEdge);
    assert TmpCustomConceptRelationship(mapping) == fs + rs;
    forall e | e in fs + rs
      ensures exists m :: m in mapping && HasTarget(m) && (e == ForwardEdge(m) || e == ReverseEdge(m))
    {
      if e in fs {
        var i :| 0 <= i < |fs| && fs[i] == e;
        assert mapped[i] in mapped;
      } else {
        var i :| 0 <= i < |rs| && rs[i] == e;
        assert mapped[i] in mapped;
      }
    }
    forall m | m in mapping && HasTarget(m)
      ensures ForwardEdge(m) in fs + rs && ReverseEdge(m) in fs + rs
    {
      assert m in mapped;
      var i :| 0 <= i < |mapped| && mapped[i] == m;
      assert fs[i] == ForwardEdge(m);
      assert rs[i] == ReverseEdge(m);
    }
  }

  // ---------------------------------------------------------------------------
  // tmp_custom_vocabulary_dist and tmp_custom_vocabulary

  /** createTmpCustomVocabularyDist: one row per distinct source_vocabulary_id. */
  function SourceVocabularyOf(m: MappingRow): string
  {
    m.sourceVocabularyId
  }

  function TmpCustomVocabularyDist(mapping: seq<MappingRow>): seq<string>
  {
    Distinct(Map(mapping, SourceVocabularyOf))
  }

  /** ROW_NUMBER() OVER (ORDER BY vocabulary_id) of a name among distinct names: one more than the names before it. */
  function Rank(v: string, names: seq<string>): int
  {
    1 + Count(names, (w: string) => StrLt(w, v))
  }

  function CustomVocabularyOf(v: string, names: seq<string>): VocabularyRow
  {
    VocabularyRow(v, v, "Odysseus generated", None, VocabularyIdBase + Rank(v, names),
                  Some("tmp_custom_mapping"), None)
  }

  /** createTmpCustomVocabulary over the distinct names. */
  function TmpCustomVocabulary(names: seq<string>): seq<VocabularyRow>
  {
    Map(names, (v: string) => CustomVocabularyOf(v, names))
  }

  /** The custom vocabularies a mapping file yields. */
  function CustomVocabularies(mapping: seq<MappingRow>): seq<VocabularyRow>
  {
    TmpCustomVocabulary(TmpCustomVocabularyDist(mapping))
  }

  /** A name's rank lies between 1 and the number of names, and a smaller name ranks strictly lower. */
  lemma RankBounds(v: string, w: string, names: seq<string>)
    requires v in names
    ensures 1 <= Rank(v, names) <= |names|
    ensures StrLt(v, w) ==> Rank(v, names) < Rank(w, names)
  {
    var below := (x: string) => StrLt(x, v);
    var all := (x: string) => true;
    CountMono(names, below, all);
    assert !below(v);
    FilterAll(names, all);
    if StrLt(v, w) {
      var belowW := (x: string) => StrLt(x, w);
      forall x | x in names && below(x)
        ensures belowW(x)
      {
        StrLtTrans(x, v, w);
      }
      CountMono(names, below, belowW);
    }
  }

  /** The smallest of a non-empty list of names. */
  function SmallestName(names: seq<string>): (m: string)
    requires |names| > 0
    ensures m in names && forall x :: x in names ==> StrLe(m, x)
  {
    StrLeTotal(names[0], names[0]);
    if |names| == 1 then names[0]
    else
      var t := SmallestName(names[1..]);
      StrLeTotal(names[0], t);
      if StrLe(names[0], t) then
        assert forall x :: x in names[1..] ==> StrLe(names[0], x) by {
          forall x | x in names[1..] ensures StrLe(names[0], x) { StrLeTrans(names[0], t, x); }
        }
        names[0]
      else
        t
  }

  /**
   * There is one custom vocabulary per distinct source_vocabulary_id of the mapping, and no
   * other, named after it and marked 'Odysseus generated'.
   */
  lemma OneVocabularyPerSource(mapping: seq<MappingRow>)
    ensures forall v :: v in TmpCustomVocabularyDist(mapping) <==> exists m :: m in mapping && m.sourceVocabularyId == v
    ensures var names := TmpCustomVocabularyDist(mapping);
            forall i, j :: 0 <= i < j < |names| ==> names[i] != names[j]
    ensures var names := TmpCustomVocabularyDist(mapping);
            var vs := CustomVocabularies(mapping);
            |vs| == |names| &&
            forall i :: 0 <= i < |vs| ==>
              vs[i].vocabularyId == names[i] && vs[i].vocabularyName == names[i] &&
              vs[i].vocabularyReference == "Odysseus generated" && vs[i].vocabularyVersion.None?
  {
    MapMembership(mapping, SourceVocabularyOf);
  }

  /**
   * Over distinct names, the vocabulary ids are distinct, increase with the name, and lie
   * in 2110000002 .. 2110000001 + n.
   */
  lemma VocabularyIdsRanked(names: seq<string>)
    requires forall i, j :: 0 <= i < j < |names| ==> names[i] != names[j]
    ensures var vs := TmpCustomVocabulary(names);
            forall i, j :: 0 <= i < |vs| && 0 <= j < |vs| && i != j ==>
              vs[i].vocabularyConceptId != vs[j].vocabularyConceptId
    ensures var vs := TmpCustomVocabulary(names);
            forall i, j :: 0 <= i < |vs| && 0 <= j < |vs| && StrLt(vs[i].vocabularyId, vs[j].vocabularyId) ==>
              vs[i].vocabularyConceptId < vs[j].vocabularyConceptId
    ensures var vs := TmpCustomVocabulary(names);
            forall i :: 0 <= i < |vs| ==>
              VocabularyIdBase + 1 <= vs[i].vocabularyConceptId <= VocabularyIdBase + |vs|
  {
    var vs := TmpCustomVocabulary(names);
    forall i | 0 <= i < |vs|
      ensures VocabularyIdBase + 1 <= vs[i].vocabularyConceptId <= VocabularyIdBase + |vs|
    {
      RankBounds(names[i], names[i], names);
    }
    forall i, j | 0 <= i < |vs| && 0 <= j < |vs| && StrLt(vs[i].vocabularyId, vs[j].vocabularyId)
      ensures vs[i].vocabularyConceptId < vs[j].vocabularyConceptId
    {
      RankBounds(names[i], names[j], names);
    }
    forall i, j | 0 <= i < |vs| && 0 <= j < |vs| && i != j
      ensures vs[i].vocabularyConceptId != vs[j].vocabularyConceptId
    {
      StrLeTotal(names[i], names[j]);
      if StrLe(names[i], names[j]) {
        RankBounds(names[i], names[j], names);
      } else {
        RankBounds(names[j], names[i], names);
      }
    }
  }

  /** The first name in order gets the id 2110000002. */
  lemma FirstVocabularyId(names: seq<string>)
    requires |names| > 0
    ensures var vs := TmpCustomVocabulary(names);
            exists i :: 0 <= i < |vs| && vs[i].vocabularyId == SmallestName(names) &&
                        vs[i].vocabularyConceptId == VocabularyIdBase + 1
  {
    var vs := TmpCustomVocabulary(names);
    var least := SmallestName(names);
    var i :| 0 <= i < |names| && names[i] == least;
    var below := (x: string) => StrLt(x, least);
    forall x | x in names
      ensures !below(x)
    {
      if StrLt(x, least) {
        StrLeAntisym(x, least);
      }
    }
    FilterNone(names, below);
    assert vs[i].vocabularyConceptId == VocabularyIdBase + 1;
  }

  // ---------------------------------------------------------------------------
  // The rebuilt tables.

  predicate IsReferenceConcept(c: Concept)
  {
    c.conceptId < CustomIdStart
  }

  predicate IsReferenceVocabulary(v: VocabularyRow)
  {
    v.vocabularyConceptId < CustomIdStart
  }

  /** WHERE concept_id < 2000000000 */
  function ReferenceConcepts(concepts: seq<Concept>): seq<Concept>
  {
    Filter(concepts, IsReferenceConcept)
  }

  /** WHERE vocabulary_concept_id < 2000000000 */
  function ReferenceVocabularies(vocabularies: seq<VocabularyRow>): seq<VocabularyRow>
  {
    Filter(vocabularies, IsReferenceVocabulary)
  }

  /** The concepts with a given id: one side of an INNER JOIN on concept_id. */
  function WithId(concepts: seq<Concept>, id: int): seq<Concept>
  {
    Filter(concepts, (c: Concept) => c.conceptId == id)
  }

  /**
   * tmp_voc_concept_relationship: the relationships INNER JOINed with the kept concepts on
   * both endpoints; a relationship appears once per pair of matching concepts.
   */
  function RetainedRelationships(rels: seq<ConceptRelationship>, kept: seq<Concept>): seq<ConceptRelationship>
  {
    FlatMap(rels, (r: ConceptRelationship) => RetainedPairs(r, kept))
  }

  /** The join result for one relationship: one copy per matching pair of endpoint concepts. */
  function RetainedPairs(r: ConceptRelationship, kept: seq<Concept>): seq<ConceptRelationship>
  {
    FlatMap(WithId(kept, r.conceptId1), (c1: Concept) => Map(WithId(kept, r.conceptId2), (c2: Concept) => r))
  }

  /** The concept row each custom vocabulary adds to the concept table. */
  function VocabularyConcept(v: VocabularyRow): Concept
  {
    Concept(v.vocabularyConceptId, v.vocabularyName, "Metadata", "Vocabulary", "Vocabulary", Some("S"),
            v.vocabularyReference, Date(1970, 1, 1), Date(2099, 12, 31), None, None, None)
  }

  function VocabularyConcepts(vs: seq<VocabularyRow>): seq<Concept>
  {
    Map(vs, VocabularyConcept)
  }

  /** The concept table after the merge: reference part, custom concepts, vocabulary concepts. */
  function RebuiltConcepts(concepts: seq<Concept>, mapping: seq<MappingRow>): seq<Concept>
  {
    ReferenceConcepts(concepts) + TmpCustomConcept(mapping) + VocabularyConcepts(CustomVocabularies(mapping))
  }

  /** The relationship table after the merge: retained reference relationships, then the custom edges. */
  function RebuiltRelationships(concepts: seq<Concept>, rels: seq<ConceptRelationship>, mapping: seq<MappingRow>)
    : seq<ConceptRelationship>
  {
    RetainedRelationships(rels, ReferenceConcepts(concepts)) + TmpCustomConceptRelationship(mapping)
  }

  /** The vocabulary table after the merge: reference vocabularies, then the custom ones. */
  function RebuiltVocabularies(vocabularies: seq<VocabularyRow>, mapping: seq<MappingRow>): seq<VocabularyRow>
  {
    ReferenceVocabularies(vocabularies) + CustomVocabularies(mapping)
  }

  /** The custom concept ids the concept mapper allocates lie above the reference range. */
  predicate CustomIds(mapping: seq<MappingRow>)
  {
    forall m :: m in mapping ==> m.sourceConceptId >= CustomIdStart
  }

  predicate UniqueIds(concepts: seq<Concept>)
  {
    forall i, j :: 0 <= i < j < |concepts| ==> concepts[i].conceptId != concepts[j].conceptId
  }

  /** Every vocabulary concept id lies above the reference range. */
  lemma VocabularyConceptIdsCustom(mapping: seq<MappingRow>)
    ensures forall c :: c in VocabularyConcepts(CustomVocabularies(mapping)) ==> c.conceptId > VocabularyIdBase
    ensures forall v :: v in CustomVocabularies(mapping) ==> v.vocabularyConceptId > VocabularyIdBase
  {
    var vs := CustomVocabularies(mapping);
    forall v | v in vs
      ensures v.vocabularyConceptId > VocabularyIdBase
    {
      var i :| 0 <= i < |vs| && vs[i] == v;
    }
    forall c | c in VocabularyConcepts(vs)
      ensures c.conceptId > VocabularyIdBase
    {
      var i :| 0 <= i < |vs| && VocabularyConcepts(vs)[i] == c;
    }
  }

  /**
   * The reference part of the rebuilt concept table is the old reference part, untouched:
   * every custom and vocabulary concept lies above it, and its ids are disjoint from theirs.
   */
  lemma ReferenceConceptsUntouched(concepts: seq<Concept>, mapping: seq<MappingRow>)
    requires CustomIds(mapping)
    ensures ReferenceConcepts(RebuiltConcepts(concepts, mapping)) == ReferenceConcepts(concepts)
    ensures forall c, d :: (c in ReferenceConcepts(concepts) && d in RebuiltConcepts(concepts, mapping) &&
                            d !in ReferenceConcepts(concepts)) ==> c.conceptId < d.conceptId
  {
    var custom := TmpCustomConcept(mapping);
    var vocab := VocabularyConcepts(CustomVocabularies(mapping));
    MapMembership(mapping, CustomConceptOf);
    VocabularyConceptIdsCustom(mapping);
    assert RebuiltConcepts(concepts, mapping) == ReferenceConcepts(concepts) + (custom + vocab);
    FilterDropsAppended(concepts, custom + vocab, IsReferenceConcept);
  }

  /** Rebuilding the vocabulary table with the same mapping twice gives what rebuilding once gives. */
  lemma RebuiltVocabulariesStable(vocabularies: seq<VocabularyRow>, mapping: seq<MappingRow>)
    ensures RebuiltVocabularies(RebuiltVocabularies(vocabularies, mapping), mapping)
              == RebuiltVocabularies(vocabularies, mapping)
  {
    VocabularyConceptIdsCustom(mapping);
    FilterDropsAppended(vocabularies, CustomVocabularies(mapping), IsReferenceVocabulary);
  }

  /** Rebuilding the concept table with the same mapping twice gives what rebuilding once gives. */
  lemma RebuiltConceptsStable(concepts: seq<Concept>, mapping: seq<MappingRow>)
    requires CustomIds(mapping)
    ensures RebuiltConcepts(RebuiltConcepts(concepts, mapping), mapping) == RebuiltConcepts(concepts, mapping)
  {
    ReferenceConceptsUntouched(concepts, mapping);
  }

  /** Without duplicate ids among the kept concepts, a join side holds at most one concept. */
  lemma {:induction false} WithIdAtMostOne(kept: seq<Concept>, id: int)
    requires UniqueIds(kept)
    ensures |WithId(kept, id)| <= 1
  {
    if kept != [] {
      var rest := kept[1..];
      assert UniqueIds(rest) by {
        forall i, j | 0 <= i < j < |rest| ensures rest[i].conceptId != rest[j].conceptId {
          assert rest[i] == kept[i + 1] && rest[j] == kept[j + 1];
        }
      }
      WithIdAtMostOne(rest, id);
      if kept[0].conceptId == id {
        forall c | c in rest
          ensures c.conceptId != id
        {
          var k :| 0 <= k < |rest| && rest[k] == c;
          assert c == kept[k + 1];
        }
        FilterNone(rest, (c: Concept) => c.conceptId == id);
      }
    }
  }

  /** Both endpoints of r are among the kept concepts. */
  predicate BothKept(kept: seq<Concept>, r: ConceptRelationship)
  {
    WithId(kept, r.conceptId1) != [] && WithId(kept, r.conceptId2) != []
  }

  /** The relationships whose endpoints are both kept, each once, in order. */
  function BothEndsKept(rels: seq<ConceptRelationship>, kept: seq<Concept>): seq<ConceptRelationship>
  {
    Filter(rels, (r: ConceptRelationship) => BothKept(kept, r))
  }

  /** A relationship is in its own join result exactly when both its endpoints are kept, and nothing else is. */
  lemma RetainedPairsMembership(r: ConceptRelationship, kept: seq<Concept>)
    ensures r in RetainedPairs(r, kept) <==> BothKept(kept, r)
    ensures forall x :: x in RetainedPairs(r, kept) ==> x == r
  {
    var j1 := WithId(kept, r.conceptId1);
    var j2 := WithId(kept, r.conceptId2);
    var copies := Map(j2, (c2: Concept) => r);
    if BothKept(kept, r) {
      assert copies[0] == r;
      assert j1[0] in j1;
    }
  }

  /** With unique concept ids, the join result for one relationship is the relationship once, or nothing. */
  lemma RetainedPairsOnce(r: ConceptRelationship, kept: seq<Concept>)
    requires UniqueIds(kept)
    ensures RetainedPairs(r, kept) == if BothKept(kept, r) then [r] else []
  {
    WithIdAtMostOne(kept, r.conceptId1);
    WithIdAtMostOne(kept, r.conceptId2);
    var j1 := WithId(kept, r.conceptId1);
    var j2 := WithId(kept, r.conceptId2);
    var g := (c2: Concept) => r;
    var f := (c1: Concept) => Map(j2, g);
    assert RetainedPairs(r, kept) == FlatMap(j1, f);
    if j1 != [] {
      assert j1[1..] == [];
      assert FlatMap(j1, f) == Map(j2, g) + FlatMap(j1[1..], f);
      if j2 != [] {
        assert Map(j2, g) == [r];
      }
    }
  }

  /** A relationship is retained exactly when it is a relationship whose endpoints are both kept. */
  lemma RetainedExactly(rels: seq<ConceptRelationship>, kept: seq<Concept>)
    ensures forall r :: r in RetainedRelationships(rels, kept) <==> r in rels && BothKept(kept, r)
  {
    forall r | r in rels
      ensures r in RetainedPairs(r, kept) <==> BothKept(kept, r)
      ensures forall x :: x in RetainedPairs(r, kept) ==> x == r
    {
      RetainedPairsMembership(r, kept);
    }
  }

  /** With unique ids among the kept concepts, the join keeps each qualifying relationship once, in order. */
  lemma {:induction false} RetainedIsFilter(rels: seq<ConceptRelationship>, kept: seq<Concept>)
    requires UniqueIds(kept)
    ensures RetainedRelationships(rels, kept) == BothEndsKept(rels, kept)
  {
    if rels != [] {
      RetainedIsFilter(rels[1..], kept);
      RetainedPairsOnce(rels[0], kept);
    }
  }

  /** A custom edge touches the source id of its mapping row, which no reference concept carries. */
  lemma CustomEdgesNotKept(concepts: seq<Concept>, mapping: seq<MappingRow>)
    requires CustomIds(mapping)
    ensures forall e :: e in TmpCustomConceptRelationship(mapping) ==> !BothKept(ReferenceConcepts(concepts), e)
  {
    var kept := ReferenceConcepts(concepts);
    EdgesOfMappedRows(mapping);
    forall e | e in TmpCustomConceptRelationship(mapping)
      ensures !BothKept(kept, e)
    {
      var m :| m in mapping && HasTarget(m) && (e == ForwardEdge(m) || e == ReverseEdge(m));
      var id := m.sourceConceptId;
      assert e.conceptId1 == id || e.conceptId2 == id;
      FilterNone(kept, (c: Concept) => c.conceptId == id);
    }
  }

  /**
   * Rebuilding the relationship table from the rebuilt tables gives the same table: the
   * earlier custom edges each touch a custom id and are dropped, and the retained reference
   * relationships are retained once more.
   */
  lemma RebuiltRelationshipsStable(concepts: seq<Concept>, rels: seq<ConceptRelationship>, mapping: seq<MappingRow>)
    requires CustomIds(mapping) && UniqueIds(ReferenceConcepts(concepts))
    ensures RebuiltRelationships(RebuiltConcepts(concepts, mapping), RebuiltRelationships(concepts, rels, mapping), mapping)
              == RebuiltRelationships(concepts, rels, mapping)
  {
    var kept := ReferenceConcepts(concepts);
    var edges := TmpCustomConceptRelationship(mapping);
    ReferenceConceptsUntouched(concepts, mapping);
    RetainedIsFilter(rels, kept);
    RetainedIsFilter(BothEndsKept(rels, kept) + edges, kept);
    CustomEdgesNotKept(concepts, mapping);
    FilterDropsAppended(rels, edges, (r: ConceptRelationship) => BothKept(kept, r));
  }

  /** Each custom vocabulary adds a concept row carrying its id, its name and the fixed metadata columns. */
  lemma VocabularyConceptRows(concepts: seq<Concept>, mapping: seq<MappingRow>)
    ensures forall v :: v in CustomVocabularies(mapping) ==>
              exists c :: c in RebuiltConcepts(concepts, mapping) &&
                c.conceptId == v.vocabularyConceptId && c.conceptName == v.vocabularyId &&
                c.domainId == "Metadata" && c.vocabularyId == "Vocabulary" && c.conceptClassId == "Vocabulary" &&
                c.standardConcept == Some("S") && c.conceptCode == "Odysseus generated" &&
                c.validStartDate == Date(1970, 1, 1) && c.validEndDate == Date(2099, 12, 31) &&
                c.invalidReason.None?
  {
    var vs := CustomVocabularies(mapping);
    forall v | v in vs
      ensures VocabularyConcept(v) in RebuiltConcepts(concepts, mapping)
    {
      var i :| 0 <= i < |vs| && vs[i] == v;
      assert VocabularyConcepts(vs)[i] == VocabularyConcept(v);
    }
  }

  // ---------------------------------------------------------------------------
  // The schema and its INSERT INTO stages.

  class LookupSchema {
    var concept: seq<Concept>
    var conceptRelationship: seq<ConceptRelationship>
    var vocabulary: seq<VocabularyRow>
    var tmpCustomMapping: seq<MappingRow>
    var tmpCustomConcept: seq<Concept>
    var tmpCustomConceptRelationship: seq<ConceptRelationship>
    var tmpCustomVocabularyDist: seq<string>
    var tmpCustomVocabulary: seq<VocabularyRow>
    var tmpVocConcept: seq<Concept>
    var tmpVocConceptRelationship: seq<ConceptRelationship>
    var tmpVocVocabulary: seq<VocabularyRow>

    /** A lookup schema holding the staged reference vocabulary and no temporary tables yet. */
    constructor (concept: seq<Concept>, conceptRelationship: seq<ConceptRelationship>, vocabulary: seq<VocabularyRow>)
      ensures this.concept == concept && this.conceptRelationship == conceptRelationship
      ensures this.vocabulary == vocabulary
    {
      this.concept := concept;
      this.conceptRelationship := conceptRelationship;
      this.vocabulary := vocabulary;
      tmpCustomMapping := [];
      tmpCustomConcept := [];
      tmpCustomConceptRelationship := [];
      tmpCustomVocabularyDist := [];
      tmpCustomVocabulary := [];
      tmpVocConcept := [];
      tmpVocConceptRelationship := [];
      tmpVocVocabulary := [];
    }

    /**
     * createTmpCustomMapping: COPY ... FROM the mapping CSV. COPY appends to the table, which
     * no stage drops, so rows of earlier loads stay in it.
     */
    method CreateTmpCustomMapping(rows: seq<MappingRow>)
      modifies this`tmpCustomMapping
      ensures tmpCustomMapping == old(tmpCustomMapping) + rows
    {
      tmpCustomMapping := tmpCustomMapping + rows;
    }

    method CreateTmpCustomConcept()
      modifies this`tmpCustomConcept
      ensures tmpCustomConcept == TmpCustomConcept(tmpCustomMapping)
    {
      tmpCustomConcept := TmpCustomConcept(tmpCustomMapping);
    }

    method CreateTmpCustomConceptRelationship()
      modifies this`tmpCustomConceptRelationship
      ensures tmpCustomConceptRelationship == TmpCustomConceptRelationship(tmpCustomMapping)
    {
      tmpCustomConceptRelationship := TmpCustomConceptRelationship(tmpCustomMapping);
    }

    method CreateTmpCustomVocabularyDist()
      modifies this`tmpCustomVocabularyDist
      ensures tmpCustomVocabularyDist == TmpCustomVocabularyDist(tmpCustomMapping)
    {
      tmpCustomVocabularyDist := TmpCustomVocabularyDist(tmpCustomMapping);
    }

    method CreateTmpCustomVocabulary()
      modifies this`tmpCustomVocabulary
      ensures tmpCustomVocabulary == TmpCustomVocabulary(tmpCustomVocabularyDist)
    {
      tmpCustomVocabulary := TmpCustomVocabulary(tmpCustomVocabularyDist);
    }

    /**
     * createTmpVocConcept: the reference concepts, the reference relationships between
     * them (joined before the custom concepts arrive), then the custom concepts appended.
     */
    method CreateTmpVocConcept()
      modifies this`tmpVocConcept, this`tmpVocConceptRelationship
      ensures tmpVocConcept == ReferenceConcepts(concept) + tmpCustomConcept
      ensures tmpVocConceptRelationship == RetainedRelationships(conceptRelationship, ReferenceConcepts(concept))
    {
      tmpVocConcept := ReferenceConcepts(concept);
      tmpVocConceptRelationship := RetainedRelationships(conceptRelationship, tmpVocConcept);
      tmpVocConcept := tmpVocConcept + tmpCustomConcept;
    }

    /** createConceptFinal: concept becomes tmp_voc_concept; the custom edges join the retained relationships. */
    method CreateConceptFinal()
      modifies this`concept, this`tmpVocConceptRelationship
      ensures concept == tmpVocConcept
      ensures tmpVocConceptRelationship == old(tmpVocConceptRelationship) + tmpCustomConceptRelationship
    {
      concept := tmpVocConcept;
      tmpVocConceptRelationship := tmpVocConceptRelationship + tmpCustomConceptRelationship;
    }

    method CreateConceptRelationshipFinal()
      modifies this`conceptRelationship
      ensures conceptRelationship == tmpVocConceptRelationship
    {
      conceptRelationship := tmpVocConceptRelationship;
    }

    /** createTmpVocVocabulary: the reference vocabularies, then the custom ones appended. */
    method CreateTmpVocVocabulary()
      modifies this`tmpVocVocabulary
      ensures tmpVocVocabulary == ReferenceVocabularies(vocabulary) + tmpCustomVocabulary
    {
      tmpVocVocabulary := ReferenceVocabularies(vocabulary);
      tmpVocVocabulary := tmpVocVocabulary + tmpCustomVocabulary;
    }

    /** createVocabularyFinal: vocabulary becomes tmp_voc_vocabulary; each custom vocabulary adds its concept. */
    method CreateVocabularyFinal()
      modifies this`vocabulary, this`concept
      ensures vocabulary == tmpVocVocabulary
      ensures concept == old(concept) + VocabularyConcepts(tmpCustomVocabulary)
    {
      vocabulary := tmpVocVocabulary;
      concept := concept + VocabularyConcepts(tmpCustomVocabulary);
    }

    /**
     * The custom tables staged from the mapping table once the file is appended to it: the
     * mapping itself, its concepts, its edges, its distinct source vocabularies and their
     * vocabulary rows.
     */
    method StageCustomTables(rows: seq<MappingRow>)
      modifies this`tmpCustomMapping, this`tmpCustomConcept, this`tmpCustomConceptRelationship,
               this`tmpCustomVocabularyDist, this`tmpCustomVocabulary
      ensures tmpCustomMapping == old(tmpCustomMapping) + rows
      ensures tmpCustomConcept == TmpCustomConcept(old(tmpCustomMapping) + rows)
      ensures tmpCustomConceptRelationship == TmpCustomConceptRelationship(old(tmpCustomMapping) + rows)
      ensures tmpCustomVocabulary == CustomVocabularies(old(tmpCustomMapping) + rows)
    {
      CreateTmpCustomMapping(rows);
      CreateTmpCustomConcept();
      CreateTmpCustomConceptRelationship();
      CreateTmpCustomVocabularyDist();
      CreateTmpCustomVocabulary();
    }

    /** The concept and relationship tables rebuilt from the staged custom tables. */
    method MergeConcepts()
      modifies this`concept, this`conceptRelationship, this`tmpVocConcept, this`tmpVocConceptRelationship
      ensures concept == ReferenceConcepts(old(concept)) + tmpCustomConcept
      ensures conceptRelationship
                == RetainedRelationships(old(conceptRelationship), ReferenceConcepts(old(concept))) + tmpCustomConceptRelationship
    {
      CreateTmpVocConcept();
      CreateConceptFinal();
      CreateConceptRelationshipFinal();
    }

    /** The vocabulary table rebuilt from the staged custom vocabularies, whose concepts join the concept table. */
    method MergeVocabularies()
      modifies this`vocabulary, this`concept, this`tmpVocVocabulary
      ensures vocabulary == ReferenceVocabularies(old(vocabulary)) + tmpCustomVocabulary
      ensures concept == old(concept) + VocabularyConcepts(tmpCustomVocabulary)
    {
      CreateTmpVocVocabulary();
      CreateVocabularyFinal();
    }

    /** The merge half of importCustomVocabulary: the three tables rebuilt from the staged custom tables. */
    method MergeCustomTables()
      modifies this`concept, this`conceptRelationship, this`vocabulary,
               this`tmpVocConcept, this`tmpVocConceptRelationship, this`tmpVocVocabulary
      ensures concept
                == ReferenceConcepts(old(concept)) + tmpCustomConcept + VocabularyConcepts(tmpCustomVocabulary)
      ensures conceptRelationship
                == RetainedRelationships(old(conceptRelationship), ReferenceConcepts(old(concept))) + tmpCustomConceptRelationship
      ensures vocabulary == ReferenceVocabularies(old(vocabulary)) + tmpCustomVocabulary
    {
      MergeConcepts();
      MergeVocabularies();
    }

    /**
     * importCustomVocabulary: the stages in order. The file is appended to tmp_custom_mapping,
     * and the three tables end up rebuilt from their old reference parts and the whole of
     * tmp_custom_mapping, whatever custom rows they held before.
     */
    method ImportCustomVocabulary(rows: seq<MappingRow>)
      modifies this
      ensures tmpCustomMapping == old(tmpCustomMapping) + rows
      ensures concept == RebuiltConcepts(old(concept), old(tmpCustomMapping) + rows)
      ensures conceptRelationship
                == RebuiltRelationships(old(concept), old(conceptRelationship), old(tmpCustomMapping) + rows)
      ensures vocabulary == RebuiltVocabularies(old(vocabulary), old(tmpCustomMapping) + rows)
    {
      StageCustomTables(rows);
      MergeCustomTables();
    }
  }

  /**
   * Rebuilding the three tables a second time from the same tmp_custom_mapping leaves them as
   * the first rebuild did: the custom rows of the first rebuild are discarded, not kept twice.
   */
  lemma RebuildTwiceIsRebuildOnce(concepts: seq<Concept>, rels: seq<ConceptRelationship>,
                                vocabularies: seq<VocabularyRow>, mapping: seq<MappingRow>)
    requires CustomIds(mapping) && UniqueIds(ReferenceConcepts(concepts))
    ensures RebuiltConcepts(RebuiltConcepts(concepts, mapping), mapping) == RebuiltConcepts(concepts, mapping)
    ensures RebuiltRelationships(RebuiltConcepts(concepts, mapping), RebuiltRelationships(concepts, rels, mapping), mapping)
              == RebuiltRelationships(concepts, rels, mapping)
    ensures RebuiltVocabularies(RebuiltVocabularies(vocabularies, mapping), mapping)
              == RebuiltVocabularies(vocabularies, mapping)
  {
    RebuiltConceptsStable(concepts, mapping);
    RebuiltRelationshipsStable(concepts, rels, mapping);
    RebuiltVocabulariesStable(vocabularies, mapping);
  }

  /**
   * Loading the same mapping file a second time appends its rows again, so the relationship
   * stage then builds twice as many custom edges as from one load.
   */
  lemma ReloadDoublesEdges(mapping: seq<MappingRow>)
    ensures |TmpCustomConceptRelationship(mapping + mapping)| == 2 * |TmpCustomConceptRelationship(mapping)|
  {
    EdgeCount(mapping);
    EdgeCount(mapping + mapping);
    FilterAppend(mapping, mapping, HasTarget);
  }

  /** The GROUP BY of tmp_custom_concept absorbs a second load of the same file: the custom concepts stay as from one load. */
  lemma ReloadKeepsConcepts(mapping: seq<MappingRow>)
    ensures TmpCustomConcept(mapping + mapping) == TmpCustomConcept(mapping)
  {
    var cs := Map(mapping, CustomConceptOf);
    assert Map(mapping + mapping, CustomConceptOf) == cs + cs by {
      MapAppend(mapping, mapping, CustomConceptOf);
    }
    assert Distinct(cs + cs) == Distinct(cs) by {
      DistinctAbsorbs(cs, cs);
    }
  }

  /** So does the GROUP BY of tmp_custom_vocabulary_dist: the custom vocabularies stay as from one load. */
  lemma ReloadKeepsVocabularies(mapping: seq<MappingRow>)
    ensures CustomVocabularies(mapping + mapping) == CustomVocabularies(mapping)
  {
    var vs := Map(mapping, SourceVocabularyOf);
    assert Map(mapping + mapping, SourceVocabularyOf) == vs + vs by {
      MapAppend(mapping, mapping, SourceVocabularyOf);
    }
    assert TmpCustomVocabularyDist(mapping + mapping) == TmpCustomVocabularyDist(mapping) by {
      DistinctAbsorbs(vs, vs);
    }
  }
}
