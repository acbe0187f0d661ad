/**
 * The custom-mapping generator: every distinct value of a source column is
 * matched against the reference concepts of one (domain, vocabulary, class)
 * and given a fresh custom concept id above 2100000000.
 *
 * The similarity scorer (token_set_ratio, with the library's own string
 * preprocessing) is a foreign library: it is the parameter `score`, an
 * arbitrary function of the query and a candidate name. The two SQL queries
 * the function sends are replaced by their results: the column of the source
 * table, the voc_concept table and the source_concept_id column of the
 * persisted tmp_custom_mapping table.
 */
module ConceptMapper {
  import opened Sql
  import opened Vocabulary

  /** The characters of the character class [\$\{\(\[\^\}\]\+\)\/]. */
  predicate IsSpecial(c: char)
  {
    c == '$' || c == '{' || c == '(' || c == '[' || c == '^' || c == '}' || c == ']' || c == '+' || c == ')' || c == '/'
  }

  /** A character that survives normalisation as it is and is not blank. */
  predicate IsText(c: char)
  {
    c != ' ' && !IsSpecial(c)
  }

  /** re.sub(r'[\$\{\(\[\^\}\]\+\)\/]+', ' ', s): every maximal run of special characters becomes one space. */
  function Normalize(s: string): (r: string)
    ensures forall i :: 0 <= i < |r| ==> !IsSpecial(r[i])
    ensures |r| <= |s|
    decreases |s|
  {
    if s == [] then []
    else if IsSpecial(s[0]) then
      var k := SkipWhile(s, IsSpecial);
      " " + Normalize(s[k..])
    else [s[0]] + Normalize(s[1..])
  }

  /** A string without special characters is left as it is. */
  lemma {:induction false} NormalizeClean(s: string)
    requires forall i :: 0 <= i < |s| ==> !IsSpecial(s[i])
    ensures Normalize(s) == s
    decreases |s|
  {
    if s != [] {
      NormalizeClean(s[1..]);
    }
  }

  /** Normalising changes a string exactly when it holds a special character, and a second pass changes nothing. */
  lemma NormalizeIdempotent(s: string)
    ensures Normalize(s) == s <==> (forall i :: 0 <= i < |s| ==> !IsSpecial(s[i]))
    ensures Normalize(Normalize(s)) == Normalize(s)
  {
    NormalizeClean(Normalize(s));
    if forall i :: 0 <= i < |s| ==> !IsSpecial(s[i]) {
      NormalizeClean(s);
    }
  }

  /** Only the special runs change, and only into blanks: the remaining text is the same, in the same order. */
  lemma {:induction false} NormalizeKeepsText(s: string)
    ensures Filter(Normalize(s), IsText) == Filter(s, IsText)
    decreases |s|
  {
    if s != [] {
      if IsSpecial(s[0]) {
        var k := SkipWhile(s, IsSpecial);
        NormalizeKeepsText(s[k..]);
        assert Normalize(s) == " " + Normalize(s[k..]);
        FilterAppend(" ", Normalize(s[k..]), IsText);
        assert Filter(" ", IsText) == [];
        assert s == s[..k] + s[k..];
        FilterAppend(s[..k], s[k..], IsText);
        FilterNone(s[..k], IsText);
      } else {
        NormalizeKeepsText(s[1..]);
        assert Normalize(s) == [s[0]] + Normalize(s[1..]);
        FilterAppend([s[0]], Normalize(s[1..]), IsText);
        assert s == [s[0]] + s[1..];
        FilterAppend([s[0]], s[1..], IsText);
      }
    }
  }

  /** A non-empty run of special characters, and nothing else, becomes one blank. */
  lemma {:induction false} NormalizeRun(s: string)
    requires s != [] && forall i :: 0 <= i < |s| ==> IsSpecial(s[i])
    ensures Normalize(s) == " "
  {
    assert SkipWhile(s, IsSpecial) == |s|;
    assert s[|s|..] == [];
  }

  /**
   * Normalising works piece by piece wherever the cut does not fall inside a run of
   * special characters: so each maximal run becomes exactly one blank and every other
   * character stays where it is.
   */
  lemma {:induction false} NormalizeConcat(x: string, y: string)
    requires x == [] || y == [] || !IsSpecial(x[|x| - 1]) || !IsSpecial(y[0])
    ensures Normalize(x + y) == Normalize(x) + Normalize(y)
    decreases |x|
  {
    if x == [] {
      assert x + y == y;
    } else if !IsSpecial(x[0]) {
      NormalizeConcat(x[1..], y);
      NormalizeStepText(x, y);
    } else {
      var k := SkipWhile(x, IsSpecial);
      if k < |x| {
        NormalizeConcat(x[k..], y);
        NormalizeStepRun(x, y);
      } else {
        NormalizeStepWholeRun(x, y);
      }
    }
  }

  /** A leading text character of x is kept in front of the rest of x and y. */
  lemma {:induction false} NormalizeStepText(x: string, y: string)
    requires x != [] && !IsSpecial(x[0])
    requires Normalize(x[1..] + y) == Normalize(x[1..]) + Normalize(y)
    ensures Normalize(x + y) == Normalize(x) + Normalize(y)
  {
    var a := x[1..];
    assert Normalize(x + y) == [x[0]] + Normalize(a + y) by {
      var xy := x + y;
      assert xy[0] == x[0] && xy[1..] == a + y;
    }
    assert Normalize(x) == [x[0]] + Normalize(a);
    AppendAssoc([x[0]], Normalize(a), Normalize(y));
  }

  /** A leading run of x that ends inside x becomes one blank in front of the rest of x and y. */
  lemma {:induction false} NormalizeStepRun(x: string, y: string)
    requires x != [] && IsSpecial(x[0]) && SkipWhile(x, IsSpecial) < |x|
    requires Normalize(x[SkipWhile(x, IsSpecial)..] + y)
               == Normalize(x[SkipWhile(x, IsSpecial)..]) + Normalize(y)
    ensures Normalize(x + y) == Normalize(x) + Normalize(y)
  {
    var k := SkipWhile(x, IsSpecial);
    var b := x[k..];
    assert Normalize(x + y) == " " + Normalize(b + y) by {
      var xy := x + y;
      SkipWhileConcat(x, y, IsSpecial);
      assert xy[0] == x[0] && xy[k..] == b + y;
    }
    assert Normalize(x) == " " + Normalize(b);
    AppendAssoc(" ", Normalize(b), Normalize(y));
  }

  /** An x that is one whole run, followed by a y that does not start with a special character, gives a blank before y. */
  lemma {:induction false} NormalizeStepWholeRun(x: string, y: string)
    requires x != [] && SkipWhile(x, IsSpecial) == |x|
    requires y == [] || !IsSpecial(y[0])
    ensures Normalize(x + y) == Normalize(x) + Normalize(y)
  {
    var xy := x + y;
    SkipWhileConcat(x, y, IsSpecial);
    assert SkipWhile(y, IsSpecial) == 0;
    assert SkipWhile(xy, IsSpecial) == |x|;
    assert xy[0] == x[0] && IsSpecial(x[0]);
    assert xy[|x|..] == y;
    assert x[|x|..] == [];
    assert Normalize(xy) == " " + Normalize(y);
    assert Normalize(x) == " " + Normalize([]);
  }

  /** The string the scorer compares with every candidate name. */
  function Query(value: string, keyPhrase: string): string
  {
    Normalize(value) + keyPhrase
  }

  /**
   * process.extract(query, names, limit=1, scorer): the candidate with the highest
   * score, the first one when several share it.
   */
  function BestIndex(query: string, names: seq<string>, score: (string, string) -> nat): (k: nat)
    requires |names| > 0
    ensures k < |names|
    ensures forall j :: 0 <= j < |names| ==> score(query, names[j]) <= score(query, names[k])
    ensures forall j :: 0 <= j < k ==> score(query, names[j]) < score(query, names[k])
  {
    BestAmongFirst(query, names, score, |names|)
  }

  /** The first best-scoring of the first n names, found by scanning forward and keeping a strictly better one. */
  function BestAmongFirst(query: string, names: seq<string>, score: (string, string) -> nat, n: nat): (k: nat)
    requires 0 < n <= |names|
    ensures k < n
    ensures forall j :: 0 <= j < n ==> score(query, names[j]) <= score(query, names[k])
    ensures forall j :: 0 <= j < k ==> score(query, names[j]) < score(query, names[k])
  {
    if n == 1 then 0
    else
      var k := BestAmongFirst(query, names, score, n - 1);
      if score(query, names[n - 1]) > score(query, names[k]) then n - 1 else k
  }

  /** standardConceptsDf[concept_name == name].head(1): the first candidate with a given name. */
  function FirstWithName(name: string, names: seq<string>): (j: nat)
    requires name in names
    ensures j < |names| && names[j] == name
    ensures forall i :: 0 <= i < j ==> names[i] != name
  {
    if names[0] == name then 0 else 1 + FirstWithName(name, names[1..])
  }

  /**
   * Looking the best name up again finds the best candidate itself: equal names score
   * equally, so no earlier candidate can carry the name of the first best one.
   */
  lemma FirstWithBestName(query: string, names: seq<string>, score: (string, string) -> nat)
    requires |names| > 0
    ensures FirstWithName(names[BestIndex(query, names, score)], names) == BestIndex(query, names, score)
  {
  }

  // ---------------------------------------------------------------------------
  // Id allocation.

  const CustomIdFloor := 2100000000

  /** select max(source_concept_id) from tmp_custom_mapping where source_concept_id > 2100000000 */
  function PersistedMax(ids: seq<int>): (m: Option<int>)
    ensures m.None? <==> (forall x :: x in ids ==> x <= CustomIdFloor)
    ensures m.Some? ==> m.value in ids && m.value > CustomIdFloor && (forall x :: x in ids ==> x <= m.value)
  {
    var above := Filter(ids, (x: int) => x > CustomIdFloor);
    if above == [] then None else Some(MaxOf(above))
  }

  /** The id a batch starts from: one above the floor and above every persisted custom id. */
  function FirstId(persisted: seq<int>): int
  {
    1 + Max(CustomIdFloor, Coalesce(PersistedMax(persisted), 0))
  }

  /** Every id of a batch, starting at FirstId, is new: above the floor and above every persisted id. */
  lemma FirstIdFresh(persisted: seq<int>)
    ensures FirstId(persisted) > CustomIdFloor
    ensures forall x :: x in persisted ==> x < FirstId(persisted)
  {
  }

  // ---------------------------------------------------------------------------
  // The rows.

  datatype MapError =
    | NoSourceValues   // df stays None and df.rename fails
    | NullSourceValue  // re.sub is given None
    | NoCandidates     // matchingConcept[0] on an empty result

  /** A row of the returned frame: the matched concept's columns, overwritten and extended. */
  datatype CustomMapping = CustomMapping(
    targetConceptId: int,
    conceptName: string,
    domainId: string,
    vocabularyId: string,
    conceptClassId: string,
    standardConcept: Option<string>,
    conceptCode: string,
    validStartDate: Date,
    validEndDate: Date,
    invalidReason: Option<string>,
    sourceConceptId: int,
    sourceVocabularyId: string,
    sourceDomainId: string,
    sourceConceptClassId: string,
    relationshipId: string,
    reverseRelationshipId: string,
    invalidReasonCr: Option<string>,
    relationshipValidStartDate: Date,
    relationshipEndDate: Date)

  /** The candidate concepts: voc_concept restricted to one domain, vocabulary and class. */
  function Candidates(vocConcept: seq<Concept>, domainId: string, vocabularyId: string, conceptClassId: string)
    : seq<Concept>
  {
    Filter(vocConcept, (c: Concept) => c.domainId == domainId && c.vocabularyId == vocabularyId
                                       && c.conceptClassId == conceptClassId)
  }

  function Names(candidates: seq<Concept>): seq<string>
  {
    Map(candidates, (c: Concept) => c.conceptName)
  }

  /** The row the loop body builds from a source value, its matched concept and its id. */
  function Shape(value: string, matched: Concept, id: int, sourceVocabularyId: string): CustomMapping
  {
    CustomMapping(
      matched.conceptId, value, matched.domainId, matched.vocabularyId, matched.conceptClassId,
      None, value, Date(1970, 1, 1), Date(2099, 12, 31), None,
      id, sourceVocabularyId, matched.domainId, matched.conceptClassId,
      "Maps to", "Mapped from", None, Date(1970, 1, 1), Date(2099, 12, 31))
  }

  /** The batch ids up to here, the df['source_concept_id'] column the allocation reads. */
  function Ids(rows: seq<CustomMapping>): (r: seq<int>)
    ensures |r| == |rows| && forall i :: 0 <= i < |rows| ==> r[i] == rows[i].sourceConceptId
  {
    Map(rows, (m: CustomMapping) => m.sourceConceptId)
  }

  /** Which exception the loop raises first, if any: the empty column, a NULL value, or no candidates to match. */
  function Failure(values: seq<Option<string>>, candidates: seq<Concept>): Option<MapError>
  {
    if values == [] then Some(NoSourceValues)
    else if values[0].None? then Some(NullSourceValue)
    else if candidates == [] then Some(NoCandidates)
    else if None in values then Some(NullSourceValue)
    else None
  }

  /** The row for the j-th source value: the first best-scoring candidate and the j-th id of the run. */
  function Expected(value: string, j: nat, candidates: seq<Concept>, persisted: seq<int>,
                    sourceVocabularyId: string, keyPhrase: string, score: (string, string) -> nat): CustomMapping
    requires |candidates| > 0
  {
    Shape(value, candidates[BestIndex(Query(value, keyPhrase), Names(candidates), score)],
          FirstId(persisted) + j, sourceVocabularyId)
  }

  /** The frame the loop builds from duplicate-free, non-NULL values: one expected row per value, in order. */
  function MappingOf(values: seq<Option<string>>, candidates: seq<Concept>, persisted: seq<int>,
                     sourceVocabularyId: string, keyPhrase: string, score: (string, string) -> nat): (r: seq<CustomMapping>)
    requires |candidates| > 0 && forall j :: 0 <= j < |values| ==> values[j].Some?
    ensures |r| == |values|
    decreases |values|
  {
    if values == [] then []
    else
      MappingOf(values[..|values| - 1], candidates, persisted, sourceVocabularyId, keyPhrase, score)
        + [Expected(values[|values| - 1].value, |values| - 1, candidates, persisted, sourceVocabularyId, keyPhrase, score)]
  }

  /** Row i of the frame is the expected row of the i-th value. */
  lemma {:induction false} MappingOfAt(values: seq<Option<string>>, candidates: seq<Concept>, persisted: seq<int>,
                                       sourceVocabularyId: string, keyPhrase: string, score: (string, string) -> nat, i: nat)
    requires |candidates| > 0 && forall j :: 0 <= j < |values| ==> values[j].Some?
    requires i < |values|
    ensures MappingOf(values, candidates, persisted, sourceVocabularyId, keyPhrase, score)[i]
              == Expected(values[i].value, i, candidates, persisted, sourceVocabularyId, keyPhrase, score)
    decreases |values|
  {
    var p := values[..|values| - 1];
    var last := Expected(values[|values| - 1].value, |values| - 1, candidates, persisted, sourceVocabularyId, keyPhrase, score);
    assert MappingOf(values, candidates, persisted, sourceVocabularyId, keyPhrase, score)
             == MappingOf(p, candidates, persisted, sourceVocabularyId, keyPhrase, score) + [last];
    if i < |values| - 1 {
      assert p[i] == values[i];
      MappingOfAt(p, candidates, persisted, sourceVocabularyId, keyPhrase, score, i);
    }
  }

  /** The ids of the frame are the consecutive run starting at FirstId. */
  lemma MappingOfIds(values: seq<Option<string>>, candidates: seq<Concept>, persisted: seq<int>,
                     sourceVocabularyId: string, keyPhrase: string, score: (string, string) -> nat)
    requires |candidates| > 0 && forall j :: 0 <= j < |values| ==> values[j].Some?
    ensures var r := MappingOf(values, candidates, persisted, sourceVocabularyId, keyPhrase, score);
            forall j :: 0 <= j < |r| ==> r[j].sourceConceptId == FirstId(persisted) + j
  {
    var r := MappingOf(values, candidates, persisted, sourceVocabularyId, keyPhrase, score);
    forall j | 0 <= j < |r|
      ensures r[j].sourceConceptId == FirstId(persisted) + j
    {
      MappingOfAt(values, candidates, persisted, sourceVocabularyId, keyPhrase, score, j);
    }
  }

  /**
   * createCustomMapping. Its result is one row per distinct source value, in loop
   * order; each row carries the first best-scoring candidate and the next id of one
   * consecutive run starting above 2100000000 and above every persisted id.
   */
  method CreateCustomMapping(
    column: seq<Option<string>>, vocConcept: seq<Concept>, persisted: seq<int>,
    sourceVocabularyId: string, domainId: string, vocabularyId: string, conceptClassId: string,
    keyPhrase: string, score: (string, string) -> nat)
    returns (result: Result<seq<CustomMapping>, MapError>)
    ensures var failure := Failure(Distinct(column), Candidates(vocConcept, domainId, vocabularyId, conceptClassId));
            (result.Err? <==> failure.Some?) && (result.Err? ==> result.error == failure.value)
    ensures result.Ok? ==>
              var values := Distinct(column);
              var candidates := Candidates(vocConcept, domainId, vocabularyId, conceptClassId);
              |candidates| > 0 && (forall i :: 0 <= i < |values| ==> values[i].Some?) &&
              result.value == MappingOf(values, candidates, persisted, sourceVocabularyId, keyPhrase, score)
  {
    var values := Distinct(column);
    var candidates := Candidates(vocConcept, domainId, vocabularyId, conceptClassId);
    result := MapValues(values, candidates, persisted, sourceVocabularyId, keyPhrase, score);
  }

  /** The loop of createCustomMapping over the distinct values and the candidate concepts. */
  method MapValues(values: seq<Option<string>>, candidates: seq<Concept>, persisted: seq<int>,
                   sourceVocabularyId: string, keyPhrase: string, score: (string, string) -> nat)
    returns (result: Result<seq<CustomMapping>, MapError>)
    ensures var failure := Failure(values, candidates);
            (result.Err? <==> failure.Some?) && (result.Err? ==> result.error == failure.value)
    ensures result.Ok? ==>
              |candidates| > 0 && (forall i :: 0 <= i < |values| ==> values[i].Some?) &&
              result.value == MappingOf(values, candidates, persisted, sourceVocabularyId, keyPhrase, score)
  {
    var rows: seq<CustomMapping> := [];
    var i := 0;
    while i < |values|
      invariant 0 <= i <= |values| && |rows| == i
      invariant i > 0 ==> |candidates| > 0
      invariant forall j :: 0 <= j < i ==> values[j].Some?
      invariant forall j :: 0 <= j < i ==>
                  rows[j] == Expected(values[j].value, j, candidates, persisted, sourceVocabularyId, keyPhrase, score)
    {
      var r := MapOne(values, i, rows, candidates, persisted, sourceVocabularyId, keyPhrase, score);
      if r.Err? {
        return Err(r.error);
      }
      ExtendFrame(values, i, rows, r.value, candidates, persisted, sourceVocabularyId, keyPhrase, score);
      rows := rows + [r.value];
      i := i + 1;
    }
    if |rows| == 0 {
      return Err(NoSourceValues);
    }
    Succeeds(values, candidates);
    FrameIsMapping(values, rows, candidates, persisted, sourceVocabularyId, keyPhrase, score);
    return Ok(rows);
  }

  /**
   * One round of the loop: the i-th value raises NullSourceValue when it is NULL and
   * NoCandidates when there is no candidate; otherwise it yields the value's expected
   * row. The candidate names and the persisted maximum are read again in every round.
   */
  method MapOne(values: seq<Option<string>>, i: nat, rows: seq<CustomMapping>, candidates: seq<Concept>,
                persisted: seq<int>, sourceVocabularyId: string, keyPhrase: string, score: (string, string) -> nat)
    returns (r: Result<CustomMapping, MapError>)
    requires i < |values| && |rows| == i
    requires i > 0 ==> |candidates| > 0
    requires forall j :: 0 <= j < i ==> values[j].Some?
    requires forall j :: 0 <= j < i ==>
               rows[j] == Expected(values[j].value, j, candidates, persisted, sourceVocabularyId, keyPhrase, score)
    ensures r.Err? ==> Failure(values, candidates) == Some(r.error)
    ensures r.Ok? ==> values[i].Some? && |candidates| > 0
    ensures r.Ok? ==> r.value == Expected(values[i].value, i, candidates, persisted, sourceVocabularyId, keyPhrase, score)
  {
    if values[i].None? {
      FailsOnNull(values, candidates, i);
      return Err(NullSourceValue);
    }
    if |candidates| == 0 {
      FailsOnNoCandidates(values, candidates, i);
      return Err(NoCandidates);
    }
    assert forall j :: 0 <= j < |rows| ==> rows[j].sourceConceptId == FirstId(persisted) + j;
    var row := MatchValue(values[i].value, rows, candidates, Names(candidates), persisted, PersistedMax(persisted),
                          sourceVocabularyId, keyPhrase, score);
    return Ok(row);
  }

  /** Appending the i-th value's expected row extends a frame of expected rows by one. */
  lemma ExtendFrame(values: seq<Option<string>>, i: nat, rows: seq<CustomMapping>, row: CustomMapping,
                    candidates: seq<Concept>, persisted: seq<int>,
                    sourceVocabularyId: string, keyPhrase: string, score: (string, string) -> nat)
    requires |candidates| > 0 && i < |values| && |rows| == i && forall j :: 0 <= j <= i ==> values[j].Some?
    requires forall j :: 0 <= j < i ==>
               rows[j] == Expected(values[j].value, j, candidates, persisted, sourceVocabularyId, keyPhrase, score)
    requires row == Expected(values[i].value, i, candidates, persisted, sourceVocabularyId, keyPhrase, score)
    ensures forall j :: 0 <= j < i + 1 ==>
              (rows + [row])[j] == Expected(values[j].value, j, candidates, persisted, sourceVocabularyId, keyPhrase, score)
  {
  }

  /** A frame holding the expected row of every value, in order, is the mapping of the values. */
  lemma FrameIsMapping(values: seq<Option<string>>, rows: seq<CustomMapping>, candidates: seq<Concept>,
                       persisted: seq<int>, sourceVocabularyId: string, keyPhrase: string, score: (string, string) -> nat)
    requires |candidates| > 0 && |rows| == |values| && forall j :: 0 <= j < |values| ==> values[j].Some?
    requires forall j :: 0 <= j < |values| ==>
               rows[j] == Expected(values[j].value, j, candidates, persisted, sourceVocabularyId, keyPhrase, score)
    ensures rows == MappingOf(values, candidates, persisted, sourceVocabularyId, keyPhrase, score)
  {
    var m := MappingOf(values, candidates, persisted, sourceVocabularyId, keyPhrase, score);
    forall j | 0 <= j < |values|
      ensures rows[j] == m[j]
    {
      MappingOfAt(values, candidates, persisted, sourceVocabularyId, keyPhrase, score, j);
    }
  }

  /** With no candidate, the first value, when it is not NULL, raises NoCandidates. */
  lemma FailsOnNoCandidates(values: seq<Option<string>>, candidates: seq<Concept>, i: nat)
    requires i < |values| && values[i].Some? && candidates == []
    requires i > 0 ==> |candidates| > 0
    ensures Failure(values, candidates) == Some(NoCandidates)
  {
  }

  /** Non-NULL values and at least one candidate raise nothing. */
  lemma Succeeds(values: seq<Option<string>>, candidates: seq<Concept>)
    requires values != [] && candidates != [] && forall j :: 0 <= j < |values| ==> values[j].Some?
    ensures Failure(values, candidates) == None
  {
    assert None !in values;
  }

  /** A NULL value met before any error raises NullSourceValue, the first error the source raises. */
  lemma FailsOnNull(values: seq<Option<string>>, candidates: seq<Concept>, i: nat)
    requires i < |values| && values[i].None?
    requires forall j :: 0 <= j < i ==> values[j].Some?
    requires i > 0 ==> |candidates| > 0
    ensures Failure(values, candidates) == Some(NullSourceValue)
  {
    assert values[i] in values;
  }

  /**
   * The loop body for one non-NULL value: the query, the best match looked up again by
   * its name, and the next id, one above the floor, the persisted maximum and the batch.
   */
  method MatchValue(value: string, rows: seq<CustomMapping>, candidates: seq<Concept>, names: seq<string>,
                    persisted: seq<int>, persistedMax: Option<int>,
                    sourceVocabularyId: string, keyPhrase: string, score: (string, string) -> nat)
    returns (row: CustomMapping)
    requires |candidates| > 0 && names == Names(candidates) && persistedMax == PersistedMax(persisted)
    requires forall j :: 0 <= j < |rows| ==> rows[j].sourceConceptId == FirstId(persisted) + j
    ensures row == Expected(value, |rows|, candidates, persisted, sourceVocabularyId, keyPhrase, score)
  {
    var query := Normalize(value) + keyPhrase;
    var best := BestIndex(query, names, score);
    FirstWithBestName(query, names, score);
    var matched := candidates[FirstWithName(names[best], names)];
    var batchMax := if rows == [] then 0 else MaxOf(Ids(rows));
    var id := 1 + Max(Max(CustomIdFloor, Coalesce(persistedMax, 0)), batchMax);
    BatchIdIsNext(persisted, rows, batchMax, id);
    row := Shape(value, matched, id, sourceVocabularyId);
  }

  /** The allocation inside the loop yields the next id of the run. */
  lemma BatchIdIsNext(persisted: seq<int>, rows: seq<CustomMapping>, batchMax: int, id: int)
    requires forall j :: 0 <= j < |rows| ==> rows[j].sourceConceptId == FirstId(persisted) + j
    requires batchMax == if rows == [] then 0 else MaxOf(Ids(rows))
    requires id == 1 + Max(Max(CustomIdFloor, Coalesce(PersistedMax(persisted), 0)), batchMax)
    ensures id == FirstId(persisted) + |rows|
  {
    if rows != [] {
      RunMax(Ids(rows), FirstId(persisted));
    }
  }

  /** The largest id of a consecutive run is its last one. */
  lemma RunMax(ids: seq<int>, base: int)
    requires |ids| > 0 && forall k :: 0 <= k < |ids| ==> ids[k] == base + k
    ensures MaxOf(ids) == base + |ids| - 1
  {
    var m := MaxOf(ids);
    var k :| 0 <= k < |ids| && ids[k] == m;
    assert ids[|ids| - 1] in ids;
  }

  /**
   * The allocation rule holds of the consecutive run: each id is one above the largest of
   * the floor, the persisted maximum and the ids allocated before it in the batch, so the
   * ids strictly increase and none equals a persisted id.
   */
  lemma ConsecutiveIdsFollowRule(persisted: seq<int>, ids: seq<int>)
    requires forall i :: 0 <= i < |ids| ==> ids[i] == FirstId(persisted) + i
    ensures forall i :: 0 <= i < |ids| ==>
              ids[i] == 1 + Max(Max(CustomIdFloor, Coalesce(PersistedMax(persisted), 0)),
                                if i == 0 then 0 else MaxOf(ids[..i]))
    ensures forall i, j :: 0 <= i < j < |ids| ==> ids[i] < ids[j]
    ensures forall i, x :: 0 <= i < |ids| && x in persisted ==> CustomIdFloor < ids[i] && x < ids[i]
  {
    forall i | 0 <= i < |ids|
      ensures ids[i] == 1 + Max(Max(CustomIdFloor, Coalesce(PersistedMax(persisted), 0)),
                                if i == 0 then 0 else MaxOf(ids[..i]))
    {
      if i > 0 {
        RunMax(ids[..i], FirstId(persisted));
      }
    }
    FirstIdFresh(persisted);
  }

  /**
   * Every row of the frame takes its target from the first of the best-scoring candidates,
   * copies that concept's domain and class and carries the fixed columns of a custom mapping.
   */
  lemma MatchedIsFirstBest(values: seq<Option<string>>, candidates: seq<Concept>, persisted: seq<int>,
                           sourceVocabularyId: string, keyPhrase: string, score: (string, string) -> nat, i: nat)
    requires |candidates| > 0 && forall j :: 0 <= j < |values| ==> values[j].Some?
    requires i < |values|
    ensures var row := MappingOf(values, candidates, persisted, sourceVocabularyId, keyPhrase, score)[i];
            var query := Query(values[i].value, keyPhrase);
            exists k :: 0 <= k < |candidates| &&
              row.targetConceptId == candidates[k].conceptId &&
              row.sourceDomainId == candidates[k].domainId && row.domainId == candidates[k].domainId &&
              row.sourceConceptClassId == candidates[k].conceptClassId &&
              (forall j :: 0 <= j < |candidates| ==>
                 score(query, candidates[j].conceptName) <= score(query, candidates[k].conceptName)) &&
              (forall j :: 0 <= j < k ==>
                 score(query, candidates[j].conceptName) < score(query, candidates[k].conceptName))
    ensures var row := MappingOf(values, candidates, persisted, sourceVocabularyId, keyPhrase, score)[i];
            row.conceptName == values[i].value && row.conceptCode == values[i].value &&
            row.sourceConceptId == FirstId(persisted) + i && row.sourceVocabularyId == sourceVocabularyId &&
            row.standardConcept.None? && row.invalidReason.None? && row.invalidReasonCr.None? &&
            row.relationshipId == "Maps to" && row.reverseRelationshipId == "Mapped from" &&
            row.validStartDate == Date(1970, 1, 1) && row.validEndDate == Date(2099, 12, 31) &&
            row.relationshipValidStartDate == Date(1970, 1, 1) && row.relationshipEndDate == Date(2099, 12, 31)
  {
    assert MappingOf(values, candidates, persisted, sourceVocabularyId, keyPhrase, score)[i]
             == Expected(values[i].value, i, candidates, persisted, sourceVocabularyId, keyPhrase, score) by {
      MappingOfAt(values, candidates, persisted, sourceVocabularyId, keyPhrase, score, i);
    }
    ExpectedIsFirstBest(values[i].value, i, candidates, persisted, sourceVocabularyId, keyPhrase, score);
  }

  /** The expected row of one value, as MatchedIsFirstBest states it for a row of the frame. */
  lemma ExpectedIsFirstBest(value: string, i: nat, candidates: seq<Concept>, persisted: seq<int>,
                            sourceVocabularyId: string, keyPhrase: string, score: (string, string) -> nat)
    requires |candidates| > 0
    ensures var row := Expected(value, i, candidates, persisted, sourceVocabularyId, keyPhrase, score);
            var query := Query(value, keyPhrase);
            exists k :: 0 <= k < |candidates| &&
              row.targetConceptId == candidates[k].conceptId &&
              row.sourceDomainId == candidates[k].domainId && row.domainId == candidates[k].domainId &&
              row.sourceConceptClassId == candidates[k].conceptClassId &&
              (forall j :: 0 <= j < |candidates| ==>
                 score(query, candidates[j].conceptName) <= score(query, candidates[k].conceptName)) &&
              (forall j :: 0 <= j < k ==>
                 score(query, candidates[j].conceptName) < score(query, candidates[k].conceptName))
    ensures var row := Expected(value, i, candidates, persisted, sourceVocabularyId, keyPhrase, score);
            row.conceptName == value && row.conceptCode == value &&
            row.sourceConceptId == FirstId(persisted) + i && row.sourceVocabularyId == sourceVocabularyId &&
            row.standardConcept.None? && row.invalidReason.None? && row.invalidReasonCr.None? &&
            row.relationshipId == "Maps to" && row.reverseRelationshipId == "Mapped from" &&
            row.validStartDate == Date(1970, 1, 1) && row.validEndDate == Date(2099, 12, 31) &&
            row.relationshipValidStartDate == Date(1970, 1, 1) && row.relationshipEndDate == Date(2099, 12, 31)
  {
    var names := Names(candidates);
    var k := BestIndex(Query(value, keyPhrase), names, score);
    assert forall j :: 0 <= j < |candidates| ==> names[j] == candidates[j].conceptName;
  }

  /**
   * The ids of a whole frame follow the allocation rule, strictly increase, and are all new:
   * above 2100000000 and above every id persisted by earlier runs.
   */
  lemma MappingIdsFresh(values: seq<Option<string>>, candidates: seq<Concept>, persisted: seq<int>,
                        sourceVocabularyId: string, keyPhrase: string, score: (string, string) -> nat)
    requires |candidates| > 0 && forall j :: 0 <= j < |values| ==> values[j].Some?
    ensures var ids := Ids(MappingOf(values, candidates, persisted, sourceVocabularyId, keyPhrase, score));
            (forall i, j :: 0 <= i < j < |ids| ==> ids[i] < ids[j]) &&
            (forall i, x :: 0 <= i < |ids| && x in persisted ==> CustomIdFloor < ids[i] && x < ids[i])
  {
    var rows := MappingOf(values, candidates, persisted, sourceVocabularyId, keyPhrase, score);
    var ids := Ids(rows);
    forall i | 0 <= i < |ids|
      ensures ids[i] == FirstId(persisted) + i
    {
      MappingOfAt(values, candidates, persisted, sourceVocabularyId, keyPhrase, score, i);
    }
    ConsecutiveIdsFollowRule(persisted, ids);
  }
}
