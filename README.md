# A verified model of the MIMIC-IV to OMOP vocabulary and mapping core

The migration turns MIMIC-IV staging tables into OMOP Common Data Model tables. Almost all of
its logic is SQL statements sent to PostgreSQL, plus one pandas loop. This project models that
logic in Dafny:

- every table is a `seq` of rows, with SQL NULL as `Option`;
- a `CREATE TABLE … AS SELECT` is a function;
- a table that is created and then grown with `INSERT INTO` (or truncated and refilled) is a
  field of a class whose methods reassign it.

It then proves what each statement guarantees about the rows it produces.

Modules, one file each:

| module | models |
|---|---|
| `Sql` | NULL, the text functions the statements use (CAST to text, TRIM, UPPER, LOWER, REPLACE, CONCAT), calendar values, and tables with INNER and LEFT JOIN, WHERE, DISTINCT, MIN, MAX and COUNT |
| `Source` | the src_* staging rows, and the tables built by stages outside the model (admissions clean, observation mapped, visit occurrence, observation period), taken as inputs |
| `Vocabulary` | concept, concept_relationship and vocabulary, and the one code-resolution chain every mapper repeats: source concept, then its 'Maps to' target, kept only when it is standard and valid |
| `ConceptMapper` | `createCustomMapping`: the per-value loop, the special-character substitution, the first best-scoring candidate, and the allocation of fresh ids above 2100000000 |
| `Lookup` | the custom-vocabulary merge of `importCustomVocabulary`: custom concepts, forward and reverse edges, ranked custom vocabularies, and the rebuilt concept, concept_relationship and vocabulary tables (class `LookupSchema`) |
| `MeasurementUnits` | the operator and unit lookups |
| `Patterns` | the regular expressions of the measurement mappers, as character scans |
| `Chartevents` | the chartevents clean, code-distribution, concept, mapped and condition stages |
| `Labevents` | the lab item, lab event, concept, admission and mapped stages |
| `AdmissionLink` | admission inference for events with a NULL hadm_id: the containing admission that starts first |
| `Microbiology` | `createMicroCrossReference`, `createMicroWithId` and the organism, specimen and antibiotic clean stages |
| `MicroMapped` | the microbiology lookup and the specimen, organism and antibiotic mapped stages |
| `Procedure` | the procedure clean stages, the three code lookups, lk_procedure_mapped and the fan-in into cdm_procedure_occurrence (class `ProcedureTables`) |
| `Person` | first ethnicity, the ethnicity lookup, cdm_person, and the final observation-period pass (class `PersonTables`) |

SQL leaves the order of a result unspecified. The model fixes one order: nested-loop order for
joins, and first occurrence for DISTINCT and GROUP BY. Every lemma about a table speaks of
membership, counts or uniqueness, so none depends on that choice. The exceptions are the
appends (`INSERT INTO` after `CREATE`), whose order is part of the program.

Three points of the program's behaviour are easy to misread:

- Special characters are not removed before scoring. Each run of them becomes one blank
  (`ConceptMapper.py:50`).
- `createCustomMapping` fails in three cases: there are no candidate concepts; the source
  column has no value at all (`df` stays `None` and the rename fails); a value is NULL.
  `ConceptMapper.MapError` names all three.
- `trace_id` is an `int` here. Only its order and equality matter.

## Model

| member | source | states |
|---|---|---|
| ConceptMapper.Normalize | migrate-omop/ConceptMapper.py:50 | the cleaned source value holds no character of the class `$ { ( [ ^ } ] + ) /` and is no longer than the value |
| ConceptMapper.NormalizeClean | migrate-omop/ConceptMapper.py:50 | a value without special characters is passed to the scorer unchanged |
| ConceptMapper.NormalizeIdempotent | migrate-omop/ConceptMapper.py:50 | the substitution changes a value exactly when it holds a special character, and applying it twice equals applying it once |
| ConceptMapper.NormalizeRun | migrate-omop/ConceptMapper.py:50 | a non-empty run made only of special characters becomes one blank |
| ConceptMapper.NormalizeConcat | migrate-omop/ConceptMapper.py:50 | the substitution splits over any cut that is not inside a run of special characters, so each maximal run is replaced separately, by one blank |
| ConceptMapper.NormalizeKeepsText | migrate-omop/ConceptMapper.py:50 | every character outside the special class and the blank survives, in order: only the special runs are rewritten, into blanks |
| ConceptMapper.BestIndex | migrate-omop/ConceptMapper.py:50 | `process.extract(..., limit=1)`: the chosen candidate scores at least as high as every candidate and strictly higher than every earlier one |
| ConceptMapper.BestAmongFirst | migrate-omop/ConceptMapper.py:50 | the forward scan over the first n names keeps the first of the highest scores |
| ConceptMapper.FirstWithName | migrate-omop/ConceptMapper.py:51 | `head(1)` of the candidates filtered by name: a candidate with that name and no earlier one with it |
| ConceptMapper.FirstWithBestName | migrate-omop/ConceptMapper.py:50-51 | looking the best name up again returns the best candidate itself, so the copied row is the first of the best-scoring candidates |
| ConceptMapper.PersistedMax | migrate-omop/ConceptMapper.py:53-54 | the persisted maximum is NULL exactly when no persisted id exceeds 2100000000, and otherwise is the largest persisted id, which exceeds it |
| ConceptMapper.FirstIdFresh | migrate-omop/ConceptMapper.py:55 | the first id of a run exceeds 2100000000 and every persisted id |
| ConceptMapper.Ids | migrate-omop/ConceptMapper.py:55 | the `df['source_concept_id']` column holds, row for row, the ids of the frame built so far |
| ConceptMapper.MappingOf | migrate-omop/ConceptMapper.py:49-72 | the frame of a run has one row per source value |
| ConceptMapper.MappingOfAt | migrate-omop/ConceptMapper.py:49-72 | row i of the frame is the row the loop builds for the i-th value, with the i-th id of the run |
| ConceptMapper.MappingOfIds | migrate-omop/ConceptMapper.py:55 | the ids of a frame are consecutive, starting at the first fresh id |
| ConceptMapper.CreateCustomMapping | migrate-omop/ConceptMapper.py:6-80 | the call fails exactly when the source raises (no distinct value, a NULL value, no candidate), with the first exception it raises; otherwise it returns one row per distinct source value, in query order, as MappingOf states |
| ConceptMapper.MapValues | migrate-omop/ConceptMapper.py:48-74 | the loop over the distinct values returns an error exactly when Failure names one, and on success the frame MappingOf describes |
| ConceptMapper.MapOne | migrate-omop/ConceptMapper.py:49-68 | one round: a NULL value or an empty candidate list gives the error Failure names; otherwise the round yields the i-th expected row |
| ConceptMapper.FrameIsMapping | migrate-omop/ConceptMapper.py:69-72 | rows concatenated in loop order, each the expected row of its value, form the mapping of the values |
| ConceptMapper.FailsOnNoCandidates | migrate-omop/ConceptMapper.py:50-51 | with no candidate, the first non-NULL value raises NoCandidates (`matchingConcept[0]` of an empty result) |
| ConceptMapper.FailsOnNull | migrate-omop/ConceptMapper.py:50 | a NULL value reached before any other error raises NullSourceValue (`re.sub` on None) |
| ConceptMapper.Succeeds | migrate-omop/ConceptMapper.py:48-74 | non-NULL values and at least one candidate raise nothing |
| ConceptMapper.MatchValue | migrate-omop/ConceptMapper.py:50-68 | the loop body computes, for a value, the expected row with the next id of the run, given ids so far that form the run |
| ConceptMapper.BatchIdIsNext | migrate-omop/ConceptMapper.py:55 | `1 + max(2100000000, persisted max or 0, batch max or 0)` is the next id of the consecutive run |
| ConceptMapper.ConsecutiveIdsFollowRule | migrate-omop/ConceptMapper.py:53-55 | the consecutive run satisfies the allocation rule at every position, strictly increases, and exceeds 2100000000 and every persisted id |
| ConceptMapper.MatchedIsFirstBest | migrate-omop/ConceptMapper.py:50-68 | each row of the frame targets the first best-scoring candidate and copies its domain and class; its name and code are the raw value; it carries the run's id, the given source vocabulary, NULL standard_concept, 'Maps to' / 'Mapped from' and validity 1970-01-01 to 2099-12-31 |
| ConceptMapper.ExpectedIsFirstBest | migrate-omop/ConceptMapper.py:50-68 | the same facts for the expected row of one value |
| ConceptMapper.MappingIdsFresh | migrate-omop/ConceptMapper.py:53-55 | the ids of a frame strictly increase, so they never repeat, and each exceeds 2100000000 and every persisted id |
| Lookup.CustomConcepts | migrate-omop/Lookup.py:381-426 | tmp_custom_concept holds exactly the concepts of the mapping rows, each once (the GROUP BY over every output column); every mapping row has its concept, with standard_concept 'S' when the target is 0 and the row's own value otherwise |
| Lookup.Mapped | migrate-omop/Lookup.py:450-451 | the rows that yield edges all have a non-NULL target |
| Lookup.EdgeCount | migrate-omop/Lookup.py:429-479 | the relationship stage holds exactly twice as many edges as there are mapping rows with a non-NULL target |
| Lookup.EdgesOfMappedRows | migrate-omop/Lookup.py:432-474 | an edge is present exactly when it is the forward or the reverse edge of a row with a target; the reverse edge swaps the endpoints and carries reverese_relationship_id; a row mapped to 0 yields two self-loops on its source id |
| Lookup.RankBounds | migrate-omop/Lookup.py:515-518 | `ROW_NUMBER() OVER (ORDER BY source_vocabulary_id)` over distinct names lies between 1 and the number of names and increases strictly with the name |
| Lookup.SmallestName | migrate-omop/Lookup.py:517 | the first name in the ordering is a name of the list no larger than any other |
| Lookup.OneVocabularyPerSource | migrate-omop/Lookup.py:482-529 | there is one custom vocabulary per distinct source_vocabulary_id and no other, named after it, referenced 'Odysseus generated', with NULL version |
| Lookup.VocabularyIdsRanked | migrate-omop/Lookup.py:515-518 | the vocabulary concept ids are distinct, increase with the vocabulary name and lie in 2110000002 .. 2110000001 + n |
| Lookup.FirstVocabularyId | migrate-omop/Lookup.py:515-518 | the smallest vocabulary name gets 2110000002, not 2110000001 |
| Lookup.VocabularyConceptIdsCustom | migrate-omop/Lookup.py:515-518 | every custom vocabulary id, and the concept row it adds, lies above 2110000001 |
| Lookup.ReferenceConceptsUntouched | migrate-omop/Lookup.py:540-597 | with custom ids at or above 2000000000, the reference part of the rebuilt concept table equals the old reference part, and every appended concept has a larger id than every reference concept |
| Lookup.RebuiltVocabulariesStable | migrate-omop/Lookup.py:635-664 | rebuilding the vocabulary table a second time with the same mapping changes nothing |
| Lookup.RebuiltConceptsStable | migrate-omop/Lookup.py:540-597 | rebuilding the concept table a second time with the same mapping changes nothing: the earlier custom rows are discarded and rebuilt identically |
| Lookup.WithIdAtMostOne | migrate-omop/Lookup.py:556-561 | without duplicate concept ids, each side of the INNER JOIN on concept_id matches at most one concept |
| Lookup.RetainedPairsMembership | migrate-omop/Lookup.py:552-562 | a relationship survives the two INNER JOINs exactly when both its endpoints are kept concepts, and the join yields copies of it only |
| Lookup.RetainedPairsOnce | migrate-omop/Lookup.py:552-562 | with unique kept ids the join yields a relationship once when both ends are kept, and nothing otherwise |
| Lookup.RetainedExactly | migrate-omop/Lookup.py:552-562 | the retained relationships are exactly the relationships whose two endpoints are retained reference concepts |
| Lookup.RetainedIsFilter | migrate-omop/Lookup.py:552-562 | with unique kept ids the join equals the filter of the relationships to those with both ends kept, in order |
| Lookup.CustomEdgesNotKept | migrate-omop/Lookup.py:432-474 | every custom edge touches a custom id, so none survives a later join against the reference concepts |
| Lookup.RebuiltRelationshipsStable | migrate-omop/Lookup.py:552-562 | rebuilding the relationship table a second time gives the same table: the earlier custom edges are dropped and the same reference relationships are retained |
| Lookup.VocabularyConceptRows | migrate-omop/Lookup.py:675-692 | each custom vocabulary adds a concept row with its id and name, domain 'Metadata', vocabulary and class 'Vocabulary', 'S', code 'Odysseus generated', validity 1970-01-01 to 2099-12-31 and no invalid_reason |
| Lookup.LookupSchema.constructor | migrate-omop/Lookup.py:737-748 | the lookup schema holds the staged reference concept, relationship and vocabulary tables |
| Lookup.LookupSchema.CreateTmpCustomMapping | migrate-omop/Lookup.py:373-378 | `COPY … FROM` appends the rows of the mapping file to tmp_custom_mapping, after the rows earlier loads left there |
| Lookup.LookupSchema.CreateTmpCustomConcept | migrate-omop/Lookup.py:381-426 | tmp_custom_concept is rebuilt from tmp_custom_mapping, nothing else changes |
| Lookup.LookupSchema.CreateTmpCustomConceptRelationship | migrate-omop/Lookup.py:429-479 | tmp_custom_concept_relationship is rebuilt from tmp_custom_mapping, nothing else changes |
| Lookup.LookupSchema.CreateTmpCustomVocabularyDist | migrate-omop/Lookup.py:482-503 | tmp_custom_vocabulary_dist is rebuilt from tmp_custom_mapping, nothing else changes |
| Lookup.LookupSchema.CreateTmpCustomVocabulary | migrate-omop/Lookup.py:506-529 | tmp_custom_vocabulary is rebuilt from tmp_custom_vocabulary_dist, nothing else changes |
| Lookup.LookupSchema.CreateTmpVocConcept | migrate-omop/Lookup.py:540-589 | tmp_voc_concept is the reference concepts followed by the custom concepts; tmp_voc_concept_relationship is joined against the reference concepts only, before the insert |
| Lookup.LookupSchema.CreateConceptFinal | migrate-omop/Lookup.py:592-618 | concept becomes tmp_voc_concept and the custom edges are appended to tmp_voc_concept_relationship |
| Lookup.LookupSchema.CreateConceptRelationshipFinal | migrate-omop/Lookup.py:621-632 | concept_relationship becomes tmp_voc_concept_relationship |
| Lookup.LookupSchema.CreateTmpVocVocabulary | migrate-omop/Lookup.py:635-664 | tmp_voc_vocabulary is the reference vocabularies followed by the custom ones |
| Lookup.LookupSchema.CreateVocabularyFinal | migrate-omop/Lookup.py:667-698 | vocabulary becomes tmp_voc_vocabulary and each custom vocabulary's concept row is appended to concept |
| Lookup.LookupSchema.StageCustomTables | migrate-omop/Lookup.py:752-756 | the first five stages append the file's rows to tmp_custom_mapping and rebuild the custom concept, edge and vocabulary tables from the whole of it, earlier rows included |
| Lookup.LookupSchema.MergeConcepts | migrate-omop/Lookup.py:758-760 | concept and concept_relationship become the reference part of the old tables followed by the custom part |
| Lookup.LookupSchema.MergeVocabularies | migrate-omop/Lookup.py:761-762 | vocabulary becomes the reference vocabularies followed by the custom ones, and their concept rows join concept |
| Lookup.LookupSchema.MergeCustomTables | migrate-omop/Lookup.py:758-762 | the merge half leaves concept as the reference concepts, the custom concepts and the custom vocabularies' concepts; concept_relationship as the retained reference edges and the custom edges; vocabulary as the reference vocabularies and the custom ones |
| Lookup.LookupSchema.ImportCustomVocabulary | migrate-omop/Lookup.py:751-763 | after the whole chain tmp_custom_mapping has the file's rows appended, and the three tables equal RebuiltConcepts, RebuiltRelationships and RebuiltVocabularies of their old contents and of the whole tmp_custom_mapping |
| Lookup.RebuildTwiceIsRebuildOnce | migrate-omop/Lookup.py:751-763 | rebuilding the three tables a second time from the same tmp_custom_mapping leaves them as the first rebuild did: the earlier custom rows are discarded, not kept twice |
| Lookup.ReloadDoublesEdges | migrate-omop/Lookup.py:429-479 | loading the same file a second time, with tmp_custom_mapping never dropped, doubles the custom edges: the relationship stage has twice as many rows |
| Lookup.ReloadKeepsConcepts | migrate-omop/Lookup.py:381-426 | the same second load leaves the custom concepts as they were, since their GROUP BY absorbs the repeated rows |
| Lookup.ReloadKeepsVocabularies | migrate-omop/Lookup.py:482-503 | the same second load leaves the custom vocabularies as they were, since their GROUP BY absorbs the repeated rows |
| Vocabulary.ResolveSourceKeepsSource | migrate-omop/Measurement.py:192-195 | every row the chain yields for one matched source concept carries that source concept |
| Vocabulary.TargetsSound | migrate-omop/Measurement.py:196-204 | a target of a source concept is a concept of the vocabulary, accepted by the target condition, and reached by a 'Maps to' edge |
| Vocabulary.TargetsComplete | migrate-omop/Measurement.py:196-204 | every accepted concept a 'Maps to' edge reaches from the source is one of its targets |
| Vocabulary.TargetsNonEmpty | migrate-omop/Measurement.py:196-204 | the two LEFT JOINs never lose a source concept: it yields at least one row, with a NULL target when nothing is accepted |
| Vocabulary.ResolveMembership | migrate-omop/Measurement.py:190-205 | the rows of the chain are exactly the matching source concepts paired with their targets, and the all-NULL row appears exactly when no concept matches |
| Vocabulary.ResolveSomeRow | migrate-omop/Measurement.py:190-205 | a row with a source concept is in the chain exactly when the concept matches and the target is one of its targets |
| Vocabulary.ResolveNoneRow | migrate-omop/Measurement.py:192-195 | a row without a source concept is in the chain exactly when its target is NULL and no concept matches |
| Vocabulary.ResolveNonEmpty | migrate-omop/Measurement.py:192-195 | a code row is never lost, and a code matching no concept yields exactly one all-NULL row |
| Vocabulary.ResolveSound | migrate-omop/Measurement.py:190-205 | every resolved source concept matches, and every resolved target is accepted and reached from that source by 'Maps to' |
| Vocabulary.ResolveRowSound | migrate-omop/Measurement.py:190-205 | the same facts for one row of the chain |
| Vocabulary.ResolveComplete | migrate-omop/Measurement.py:190-205 | every accepted target reached from a matching source appears, paired with that source |
| Vocabulary.ResolveUnmapped | migrate-omop/Measurement.py:196-204 | every target is NULL exactly when no matching source reaches an accepted concept by 'Maps to' |
| MeasurementUnits.OperatorRows | migrate-omop/Measurement.py:6-22 | lk_meas_operator_concept has one row per concept of the 'Meas Value Operator' domain and no other |
| MeasurementUnits.BestBelow | migrate-omop/Measurement.py:34-37 | the row numbered 1 in a concept_code partition, among the first k candidates, has that code |
| MeasurementUnits.BestBelowIsFirst | migrate-omop/Measurement.py:34-37 | the row numbered 1 comes first in the partition's `UPPER(vocabulary_id)` order; no row is picked only when the partition is empty |
| MeasurementUnits.FirstOfCodes | migrate-omop/Measurement.py:34-73 | the rows with row_num = 1 are exactly the first rows of their partitions, one per concept_code |
| MeasurementUnits.UnitTempSound | migrate-omop/Measurement.py:38-42 | every kept unit is a 'Unit'-domain concept of UCUM, mimiciv_meas_unit or mimiciv_meas_wf_unit |
| MeasurementUnits.UnitTempOnePerCode | migrate-omop/Measurement.py:25-73 | no two kept units share a concept_code, and every unit concept's code is kept through a concept whose `UPPER(vocabulary_id)` is not greater than its own |
| MeasurementUnits.UnitConceptSound | migrate-omop/Measurement.py:51-79 | every lk_meas_unit_concept row comes from a kept unit, and a non-NULL target is a valid concept the unit maps to |
| MeasurementUnits.UnitConceptComplete | migrate-omop/Measurement.py:64-71 | every valid concept a kept unit maps to is a target row of that unit, whether standard or not |
| MeasurementUnits.UnitConceptId | migrate-omop/Measurement.py:253-256 | unit_concept_id is NULL exactly when valueuom is NULL, the unit's target when it resolves, and 0 when it does not |
| Patterns.RunFrom | migrate-omop/Measurement.py:104 | the run of matching characters from k is maximal: all of it matches and the character after it, if any, does not |
| Patterns.SignLength | migrate-omop/Measurement.py:104 | `[-]?` takes one character exactly when the text starts with '-' |
| Patterns.PointEnd | migrate-omop/Measurement.py:104 | `[.]?` takes one character exactly when a '.' stands at that index |
| Patterns.NumberPrefix | migrate-omop/Measurement.py:104 | the match of `[-]?[\d]+[.]?[\d]*` at the start of the text lies within the text |
| Patterns.NumberChars | migrate-omop/Measurement.py:104 | a matched number holds only '-', '.' and digits |
| Patterns.NoNumberAtSpace | migrate-omop/Measurement.py:104 | no number match starts at a space |
| Patterns.NumberPrefixConcat | migrate-omop/Measurement.py:104 | a number match that ends inside a text is unchanged by what follows the text |
| Patterns.UnitStart | migrate-omop/Measurement.py:104 | the `[ ]*` between the number and the unit covers only spaces |
| Patterns.Truncate | migrate-omop/Measurement.py:109 | `character varying(20)` keeps a prefix of at most 20 characters, and a shorter text whole |
| Patterns.FirstNumberLeftmost | migrate-omop/Measurement.py:104 | REGEXP_MATCH of the number pattern finds nothing exactly when no number starts anywhere, and otherwise returns the match at the first index where one starts |
| Patterns.NumberOfPadded | migrate-omop/Measurement.py:104 | the leftmost number of a value padded with spaces is the leading number of the trimmed value |
| Patterns.LettersOfPadded | migrate-omop/Measurement.py:109 | the leftmost `[a-z]+` of a padded value with a unit suffix is the trimmed value's unit |
| Patterns.ValueSplitMatches | migrate-omop/Measurement.py:102-111 | when the trimmed value matches `^[-]?[\d]+[.]?[\d]*[ ]*[a-z]+$`, the two matches taken on the untrimmed value are exactly the leading number and the trailing letters of the trimmed value |
| Patterns.LeadingOperator | migrate-omop/Measurement.py:352 | `^(\<=\|\>=\|\>\|\<\|=\|)` always matches: it captures a prefix of the value that is '' or one of the operators, and the longest operator the value starts with |
| Chartevents.CharteventsCleanRows | migrate-omop/Measurement.py:90-136 | a clean row exists exactly for a chart event INNER JOINed with its item that passes the temperature filter |
| Chartevents.SplitColumns | migrate-omop/Measurement.py:102-111 | with the first array element taken, a trimmed value of the form number-spaces-letters gives valuenum its leading number (as text) and valueuom its letters cut to 20 characters; any other value, NULL included, keeps the event's valuenum and valueuom |
| Chartevents.ArrayText | migrate-omop/Measurement.py:109 | a one-element text[] renders as its element between '{' and '}', the element quoted when it reads as NULL |
| Chartevents.SplitUnitInBraces | migrate-omop/Measurement.py:107-111 | as written, a split value's valueuom is the array text cut to 20 characters: it starts with '{' and never equals the letters themselves |
| Chartevents.ShortUnitBothWays | migrate-omop/Measurement.py:107-111 | a split value whose letters u are at most 18 long: '{u}' as written, u with the first element taken |
| Chartevents.SplitUnitMissesItsUnit | migrate-omop/Measurement.py:272-274 | as written, when no unit code starts with '{', the unit LEFT JOIN of a split value finds nothing and unit_concept_id is 0 |
| Chartevents.BracedUnitJoinsNothing | migrate-omop/Measurement.py:272-274 | a valueuom starting with '{' joins only the all-NULL unit row when no unit code starts with '{', and unit_concept_id is 0 |
| Chartevents.SplitUnitFindsItsUnit | migrate-omop/Measurement.py:272-274 | with the first element taken, a unit named by the letters joins the row and gives unit_concept_id its target, or 0 |
| ChartUnitExample.MgStoredInBraces | migrate-omop/Measurement.py:107-111 | a split value whose letters are 'mg', such as '5 mg', stores '{mg}' as written and 'mg' with the first element taken |
| ChartUnitExample.MgUnitMissed | migrate-omop/Measurement.py:272-274 | against a unit table holding 'mg', the stored '{mg}' joins no unit and gets unit_concept_id 0, while 'mg' joins the unit and gets its target |
| Patterns.FiveMgLetters | migrate-omop/Measurement.py:107-111 | '5 mg' trims to itself, matches the unit-suffix pattern, and its leftmost `[a-z]+` is 'mg' |
| MeasurementUnits.UnitMatchesNone | migrate-omop/Measurement.py:272-274 | a valueuom no unit is named by joins only the all-NULL row |
| MeasurementUnits.UnitMatchesOne | migrate-omop/Measurement.py:272-274 | a table of one unit named by valueuom joins exactly that unit |
| Chartevents.TemperatureFilter | migrate-omop/Measurement.py:122-129 | an event of an item whose label does not end in 'Temperature' passes; a row whose label ends in 'Temperature' comes from an event with a valuenum the plausibility test accepts, in Fahrenheit when valueuom holds an 'F' |
| Chartevents.ValueKeys | migrate-omop/Measurement.py:164-165 | the distinct values of the clean table are exactly the values its rows carry |
| Chartevents.ItemKeys | migrate-omop/Measurement.py:151-154 | the distinct (itemid, source_code, source_label) keys are exactly the keys the rows carry |
| Chartevents.ValueGroupsOnePerValue | migrate-omop/Measurement.py:156-167 | the value half, grouped by value alone, has one row per distinct value, NULL included, and every row's value is counted |
| Chartevents.ValueGroupCounts | migrate-omop/Measurement.py:156-161 | a value row has a NULL itemid, the value as code and label, vocabulary 'mimiciv_meas_chartevents_value', and the number of clean rows with that value, at least one, as row_count |
| Chartevents.ItemGroupsOnePerItem | migrate-omop/Measurement.py:143-154 | the item half has one row per (itemid, source_code, source_label) key, and every clean row's key is counted |
| Chartevents.ValueGroupedByItemToo | migrate-omop/Measurement.py:164-167 | as written, the value 'Yes' under two items gives two value rows with the same source_code |
| Chartevents.YesIsTheOnlyValue | migrate-omop/Measurement.py:164-165 | the two example chart rows carry one distinct value |
| Chartevents.YesCountsBoth | migrate-omop/Measurement.py:161 | both example chart rows read 'Yes' |
| Chartevents.ValueGroupedByValue | migrate-omop/Measurement.py:156-167 | grouped by value alone, the same rows give one 'Yes' row counting both |
| Chartevents.ValueHalvesSameCodes | migrate-omop/Measurement.py:156-167 | the value half as written and as intended name the same codes, with the same label, item and vocabulary: only how often a code occurs and its row_count differ |
| Chartevents.ChartConceptResolution | migrate-omop/Measurement.py:176-210 | a concept row's source concept carries the code row's code in its vocabulary, a target is a standard, valid concept reached by 'Maps to', and every code row keeps at least one concept row |
| Chartevents.ValueAsConceptId | migrate-omop/Measurement.py:245-248 | value_as_concept_id is set exactly when valuenum is NULL and the value is not; then it is the joined value concept's target, or 0 when no value concept joined or the joined one has no target |
| Chartevents.MappedValueFrom | migrate-omop/Measurement.py:245-271 | the value concept column of a mapped row is set only under its condition; a value other than 0 is a 'Meas Value' target of the row's value, and 0 means no value concept matched or a matching one has no target |
| Chartevents.MappedUnitFrom | migrate-omop/Measurement.py:253-274 | the unit concept column of a mapped row is set only when there is a unit; a value other than 0 is the target of a unit named by valueuom, and 0 means no unit is named or a named one has no target |
| Chartevents.MappedMainFrom | migrate-omop/Measurement.py:235-266 | source_vocabulary_id, source_domain_id, source_concept_id, target_domain_id and target_concept_id all come from one lk_chartevents_concept row of the item's own code in 'mimiciv_meas_chart', or are all NULL when no such row exists; the target domain is NULL exactly with the target |
| Chartevents.MappedRowFrom | migrate-omop/Measurement.py:224-260 | a row built from one choice of the three joins satisfies every column rule of lk_chartevents_mapped |
| Chartevents.RowsForFrom | migrate-omop/Measurement.py:272-274 | every row of the unit join of one combination satisfies the column rules |
| Chartevents.RowsForMainFrom | migrate-omop/Measurement.py:267-274 | every row of the value and unit joins of one combination satisfies the column rules |
| Chartevents.MappedRowsOfFrom | migrate-omop/Measurement.py:261-274 | every row the three LEFT JOINs give for one clean row satisfies the column rules |
| Chartevents.ChartMappedRows | migrate-omop/Measurement.py:221-280 | every row of lk_chartevents_mapped comes from a clean row: it copies subject_id, hadm_id, stay_id, start_datetime, itemid, source_code, source_label, the number, the unit and the provenance, with type 32817 and unit_id 'meas.' + unit_id; its five c_main columns come from one item concept row or are all NULL when none matches; value_source_value, value_as_concept_id and unit_concept_id are set only under their conditions, and 0 means that no joined row gives a target |
| Chartevents.ChartMappedKeepsRows | migrate-omop/Measurement.py:261-274 | the LEFT JOINs lose no chart row: every clean row yields at least one mapped row, which copies that row's columns and meets every column rule |
| Chartevents.ChartValueConceptsReached | migrate-omop/Measurement.py:245-271 | every value concept of a chart value without a number reaches lk_chartevents_mapped: some row of that clean row carries its target, or 0 when it has none |
| Chartevents.ConditionRows | migrate-omop/Measurement.py:283-313 | a chart row enters lk_chartevents_condition_mapped exactly when its value resolves into the 'Condition' domain, once per such resolution, with the value as code and unit_id 'cond.' + its unit_id |
| Labevents.LabItemCode | migrate-omop/Measurement.py:316-338 | a lab item's vocabulary is 'LOINC' exactly when loinc_code is non-NULL and 'mimiciv_meas_lab_loinc' exactly when it is NULL; its code is `COALESCE(loinc_code, itemid as text)`; its label is label, fluid and category joined by '\|', NULL parts as empty text |
| Labevents.LocalCodesIdentifyItems | migrate-omop/Measurement.py:322-330 | two items in the local vocabulary with the same source code have the same itemid |
| Labevents.LabItemsCleanRows | migrate-omop/Measurement.py:319-333 | lk_meas_d_labitems_clean has one row per lab item, in order |
| Labevents.LabeventsCleanRows | migrate-omop/Measurement.py:341-375 | a clean row exists exactly for a lab event with a non-NULL value INNER JOINed with its item |
| Labevents.LabValueColumns | migrate-omop/Measurement.py:352-357 | the operator is the longest comparison operator starting the value, or ''; the number is the leftmost number in the value, NULL exactly when the value holds none; valueuom becomes NULL exactly when it is NULL or blank and is kept otherwise |
| Labevents.LabItemConceptResolution | migrate-omop/Measurement.py:378-419 | a concept row's source concept carries its item's code in the item's vocabulary, a target is a standard, valid concept reached by 'Maps to', and every item keeps at least one concept row |
| Labevents.LabAdmission | migrate-omop/Measurement.py:422-446 | a lab row keeps its own hadm_id; without one it gets an admission of the same subject containing its time with no containing admission starting earlier, and NULL exactly when none contains it |
| Labevents.MappedOperatorFrom | migrate-omop/Measurement.py:470-488 | the operator concept of a mapped row is the target of an operator named by the captured operator, or NULL |
| Labevents.MappedUnitFrom | migrate-omop/Measurement.py:466-491 | the unit concept of a mapped row is set exactly when there is a unit; a value other than 0 is the target of a unit named by valueuom, and 0 means no unit is named or a named one has no target (or the target 0) |
| Labevents.MappedRowFrom | migrate-omop/Measurement.py:452-496 | a row built from one choice of the joins satisfies every column rule of lk_meas_labevents_mapped |
| Labevents.RowsForUnitFrom | migrate-omop/Measurement.py:489-491 | every row of the unit join of one combination satisfies the column rules |
| Labevents.RowsForConceptFrom | migrate-omop/Measurement.py:486-491 | every row of the operator and unit joins of one combination satisfies the column rules |
| Labevents.MappedRowsOfFrom | migrate-omop/Measurement.py:481-496 | every row the joins give for one clean row satisfies the column rules |
| Labevents.LabMappedRows | migrate-omop/Measurement.py:449-501 | every row of lk_meas_labevents_mapped comes from a clean row: it copies identity, value, operator, number and unit columns, takes source_code from the itemid, hadm_id from the inferred admission, its concepts from a concept row of its item with target domain defaulting to 'Measurement', its operator concept from the operator join, its unit concept from a unit named by valueuom with 0 only for a missing unit or target, and a NULL value_as_concept_id |
| Labevents.LabMappedKeepsRow | migrate-omop/Measurement.py:483-495 | a clean row whose item has a concept row is not lost by the LEFT JOINs |
| Labevents.CleanRowOfEvent | migrate-omop/Measurement.py:365-369 | an event with a non-NULL value that joins an item has its clean row |
| Labevents.ConceptRowOfItem | migrate-omop/Measurement.py:399-413 | every lab item has a concept row |
| Labevents.LabPipelineKeepsEvents | migrate-omop/Measurement.py:887-892 | through the whole lab chain, an event with a non-NULL value whose item is in d_labitems reaches lk_meas_labevents_mapped as a row built from its clean row |
| AdmissionLink.Earliest | migrate-omop/Measurement.py:429-432 | the row numbered 1 exists exactly when there is a candidate, and has the earliest start of them |
| AdmissionLink.CandidatesOfEvent | migrate-omop/Measurement.py:433-440 | the candidates numbered for an event's trace_id are exactly the admissions of its subject whose interval contains its time, inclusively |
| AdmissionLink.AdmissionInference | migrate-omop/Measurement.py:422-446 | a source hadm_id is never replaced; otherwise the inferred one is an admission containing the event with no containing admission starting earlier, NULL exactly when none contains it |
| AdmissionLink.InferenceInStay | migrate-omop/Measurement.py:437-438 | an event during a stay is linked to that stay |
| AdmissionLink.InferenceBetweenStays | migrate-omop/Measurement.py:437-438 | an event between two stays is linked to no admission |
| Microbiology.MinTrace | migrate-omop/Measurement.py:510-519 | the FIRST_VALUE by trace_id order is no larger than any trace_id of the partition |
| Microbiology.MinTraceAttained | migrate-omop/Measurement.py:510-519 | that least trace_id is carried by a row of the partition |
| Microbiology.CrossRefsMembership | migrate-omop/Measurement.py:507-533 | the cross-reference rows are exactly those built from the events, one per event |
| Microbiology.CrossRefIn | migrate-omop/Measurement.py:507-533 | every microbiology event has its cross-reference row |
| Microbiology.CrossRefFrom | migrate-omop/Measurement.py:507-533 | every cross-reference row is that of an event |
| Microbiology.CrossRefOrder | migrate-omop/Measurement.py:509-527 | trace_id_org is the least trace_id of the event's (subject, hadm, time, spec, test, org) partition and trace_id_spec that of its (subject, hadm, time, spec) partition, each carried by an event of the partition, so trace_id_spec <= trace_id_org <= trace_id_ab |
| Microbiology.OrgTraceShared | migrate-omop/Measurement.py:510-519 | events of one test-organism partition share trace_id_org |
| Microbiology.SpecTraceShared | migrate-omop/Measurement.py:520-527 | events of one specimen partition share trace_id_spec |
| Microbiology.OrgLeaderOf | migrate-omop/Measurement.py:586-588 | the event whose trace_id equals a partition's trace_id_org is that partition's leader, with the same cross-reference columns |
| Microbiology.SpecLeaderOf | migrate-omop/Measurement.py:613-615 | the event whose trace_id equals a partition's trace_id_spec is that specimen partition's leader |
| Microbiology.OrgLeaderUnique | migrate-omop/Measurement.py:510-519 | a test-organism partition has one leader |
| Microbiology.SpecLeaderUnique | migrate-omop/Measurement.py:520-527 | a specimen partition has one leader |
| Microbiology.SpecLeaderLeadsOrg | migrate-omop/Measurement.py:509-527 | the leader of a specimen partition also leads its own test-organism partition |
| Microbiology.MicroKeysUnique | migrate-omop/Measurement.py:546-551 | every event's key is in the cross-reference and is the only one with its trace_id_ab |
| Microbiology.MicroAdmission | migrate-omop/Measurement.py:541-566 | a microbiology row keeps its own hadm_id; without one it gets an admission of the same subject containing `COALESCE(charttime, chartdate)`, none containing it starting earlier, and NULL exactly when none contains it |
| Microbiology.OrganismRowSource | migrate-omop/Measurement.py:584-588 | an organism row is built from an event and the cross-reference row whose trace_id_org is that event's trace_id |
| Microbiology.OrganismRowIsLeaders | migrate-omop/Measurement.py:568-594 | every organism row is the row of a test-organism partition's leader |
| Microbiology.LeaderRowIsOrganism | migrate-omop/Measurement.py:568-594 | every partition leader's row is an organism row |
| Microbiology.OrganismRowsAreLeaders | migrate-omop/Measurement.py:568-594 | lk_meas_organism_clean holds exactly the rows of the test-organism partitions' leaders |
| Microbiology.OrgPartitionsHaveLeaders | migrate-omop/Measurement.py:510-519 | every test-organism partition has a leader |
| Microbiology.OrganismTracesDistinct | migrate-omop/Measurement.py:572-583 | no two organism rows share a trace_id |
| Microbiology.SpecimenRowSource | migrate-omop/Measurement.py:611-615 | a specimen row is built from an organism row and the cross-reference row whose trace_id_spec is that row's trace_id |
| Microbiology.SpecimenRowIsLeaders | migrate-omop/Measurement.py:597-621 | every specimen row is the row of a specimen partition's leader |
| Microbiology.LeaderRowIsSpecimen | migrate-omop/Measurement.py:597-621 | every specimen partition leader's row is a specimen row |
| Microbiology.SpecimenRowsAreLeaders | migrate-omop/Measurement.py:597-621 | lk_specimen_clean holds exactly the rows of the specimen partitions' leaders |
| Microbiology.SpecPartitionsHaveLeaders | migrate-omop/Measurement.py:520-527 | every specimen partition has a leader |
| Microbiology.SpecimenTracesDistinct | migrate-omop/Measurement.py:601-610 | no two specimen rows share a trace_id |
| Microbiology.AbRowsOfOne | migrate-omop/Measurement.py:644-648 | an event with an antibiotic whose trace_id names one cross-reference row joins that row alone |
| Microbiology.AbRowsOfEvent | migrate-omop/Measurement.py:644-648 | with unique trace_ids, an event with an antibiotic joins exactly its own cross-reference row |
| Microbiology.AbCleanFromEvents | migrate-omop/Measurement.py:624-654 | lk_meas_ab_clean holds exactly one row per event with a non-NULL ab_itemid, and its trace_id_org is at most its own trace_id |
| MicroMapped.DictionaryItemColumns | migrate-omop/Measurement.py:661-667 | a d_micro lookup row has its itemid, the itemid as text as code, its label, and the vocabulary 'mimiciv_micro_' + lower-cased category, or the bare prefix when the category is NULL |
| MicroMapped.DictionaryCodesIdentify | migrate-omop/Measurement.py:663 | two d_micro lookup rows share a source code exactly when they share an itemid |
| MicroMapped.ResistanceItemsMembership | migrate-omop/Measurement.py:669-677 | the resistance rows are exactly one per distinct non-NULL interpretation of the antibiotic rows |
| MicroMapped.MicroLookupCleanRows | migrate-omop/Measurement.py:657-683 | lk_d_micro_clean is first one row per d_micro row, the only rows with an itemid, then the resistance rows, no two with the same code; a row is in it exactly when it is one of these |
| MicroMapped.MicroConceptRowFrom | migrate-omop/Measurement.py:686-729 | a lookup concept row's source concept carries its item's code in the item's vocabulary, and its target is a standard, valid concept reached by 'Maps to' |
| MicroMapped.MicroConceptRowOfItem | migrate-omop/Measurement.py:705-723 | every lookup item keeps a concept row |
| MicroMapped.MicroConceptResolution | migrate-omop/Measurement.py:686-729 | both facts above for the whole lk_d_micro_concept table |
| MicroMapped.SpecimenMappedOfRows | migrate-omop/Measurement.py:753-761 | the rows of one specimen row are exactly those built from the lookup rows of its specimen item |
| MicroMapped.SpecimenMappedTable | migrate-omop/Measurement.py:732-767 | every lk_specimen_mapped row comes from a specimen row and a lookup row of its specimen item, with type 32856, the linked admission and target domain defaulting to 'Specimen'; every such pair gives a row |
| MicroMapped.TestCodeConcat | migrate-omop/Measurement.py:784 | the organism source code is the test code, '\|', and the specimen code |
| MicroMapped.OrganismRowFrom | migrate-omop/Measurement.py:774-811 | a row built from one choice of the joins satisfies every column rule of lk_meas_organism_mapped |
| MicroMapped.OrgRowsForSpecFrom | migrate-omop/Measurement.py:804-810 | every row of the organism and admission joins of one combination satisfies the column rules |
| MicroMapped.OrgRowsForTestFrom | migrate-omop/Measurement.py:801-810 | every row of the specimen, organism and admission joins of one combination satisfies the column rules |
| MicroMapped.OrganismMappedOfFrom | migrate-omop/Measurement.py:796-811 | every row the joins give for one organism row satisfies the column rules |
| MicroMapped.OrganismMappedSound | migrate-omop/Measurement.py:770-816 | every lk_meas_organism_mapped row copies an organism row, takes its measurement from lookup rows of its test and specimen items (target domain defaulting to 'Measurement'), and its value from a lookup row of its organism item, NULL when there is none |
| MicroMapped.OrganismMappedKeepsRow | migrate-omop/Measurement.py:798-810 | an organism row whose test and specimen items have lookup rows is not lost |
| MicroMapped.AbRowFrom | migrate-omop/Measurement.py:823-863 | a row built from one choice of the joins satisfies every column rule of lk_meas_ab_mapped |
| MicroMapped.AbRowsForResistanceFrom | migrate-omop/Measurement.py:856-862 | every row of the operator and admission joins of one combination satisfies the column rules |
| MicroMapped.AbRowsForConceptFrom | migrate-omop/Measurement.py:852-862 | every row of the resistance, operator and admission joins of one combination satisfies the column rules |
| MicroMapped.AbMappedOfFrom | migrate-omop/Measurement.py:847-863 | every row the joins give for one antibiotic row satisfies the column rules |
| MicroMapped.AbMappedSound | migrate-omop/Measurement.py:819-868 | every lk_meas_ab_mapped row copies an antibiotic row, takes its concepts from a lookup row of its antibiotic item with 0 for a miss, its value concept from a resistance row of its interpretation (NULL only when no resistance row exists or the joined one has no target) and its operator from its dilution comparison |
| MicroMapped.AbMappedKeepsRow | migrate-omop/Measurement.py:849-862 | an antibiotic row whose item has a lookup row is not lost |
| MicroMapped.DictionaryConceptJoins | migrate-omop/Measurement.py:661-667 | every d_micro item has a lookup concept row that joins it |
| MicroMapped.ResistanceRowFound | migrate-omop/Measurement.py:669-677 | every antibiotic row with a non-NULL interpretation finds a resistance lookup row, whose target, if any, is a standard, valid concept that a 'mimiciv_micro_resistance' concept with that code maps to |
| MicroMapped.SpecimenPipelineKeepsLeaders | migrate-omop/Measurement.py:895-903 | the leader of a specimen partition whose item is in d_micro reaches lk_specimen_mapped with its identity, time, trace_id and linked admission |
| MicroMapped.OrganismPipelineKeepsLeaders | migrate-omop/Measurement.py:895-904 | the leader of a test-organism partition whose test and specimen items are in d_micro reaches lk_meas_organism_mapped with its identity, time, trace_id, its specimen partition's trace_id and its linked admission |
| MicroMapped.AbPipelineKeepsEvents | migrate-omop/Measurement.py:895-905 | an event whose antibiotic item is in d_micro reaches lk_meas_ab_mapped with its identity, time, trace_id, interpretation, its test-organism partition's trace_id and its linked admission |
| Procedure.HcpcsCleanRows | migrate-omop/etl/Procedure.py:30-55 | lk_hcpcsevents_clean holds exactly one row per HCPCS event and admission with the same hadm_id, dated at the admission's discharge time; an event with no admission is dropped |
| Procedure.WithoutDots | migrate-omop/etl/Procedure.py:73 | REPLACE(code, '.', '') is NULL exactly for NULL, holds no dot and keeps every other character of the code |
| Procedure.ProceduresCleanRows | migrate-omop/etl/Procedure.py:58-88 | lk_procedures_icd_clean holds exactly the ICD procedures with an admission, dated at its discharge; version 9 gives 'ICD9Proc', 10 'ICD10PCS', any other 'Unknown'; the source code is the ICD code with its dots removed, NULL exactly when the code is |
| Procedure.ProceduresCleanRow | migrate-omop/etl/Procedure.py:68-73 | the vocabulary and source code rules above for one clean row |
| Procedure.ProcEventItemsRows | migrate-omop/etl/Procedure.py:94-111 | the procedure-event part of lk_proc_d_items_clean is exactly the events with cancelreason 0, with their own start time and value |
| Procedure.DatetimeItemsRows | migrate-omop/etl/Procedure.py:113-132 | the datetime-event part is exactly one row per event and patient of its subject whose event year is at least anchor_year - anchor_age - 1, starting at the event's value with quantity 1 |
| Procedure.CodeLookupRowsOf | migrate-omop/etl/Procedure.py:153-162 | one concept's lookup rows are exactly one per standard, valid 'Maps to' target, or one row with no target; never none |
| Procedure.CodeLookupRows | migrate-omop/etl/Procedure.py:141-202 | a code lookup is sound (its source is a concept of the chosen vocabularies, its target a standard, valid concept the source maps to), loses no such concept and holds every such target |
| Procedure.HcpcsConceptRows | migrate-omop/etl/Procedure.py:141-170 | lk_hcpcs_concept holds only HCPCS and CPT4 concepts under their own codes, with standard, valid targets they map to; every HCPCS or CPT4 concept has a row |
| Procedure.IcdProcConceptRows | migrate-omop/etl/Procedure.py:173-202 | lk_icd_proc_concept holds only ICD9Proc and ICD10PCS concepts under their codes without dots, with standard, valid targets; every such concept has a row |
| Procedure.IcdProcConceptRow | migrate-omop/etl/Procedure.py:178-199 | one ICD lookup row's source is an ICD9Proc or ICD10PCS concept and its code is that concept's without dots |
| Procedure.ItemConceptRowFrom | migrate-omop/etl/Procedure.py:205-240 | an lk_itemid_concept row belongs to a d_items row linked to procedureevents or datetimeevents, its code is the itemid as text, its source concept names that item in a procedure item vocabulary, and its target is a standard, valid concept the source maps to |
| Procedure.ItemidConceptRows | migrate-omop/etl/Procedure.py:205-240 | the same for every row, and every procedure item has a row |
| Procedure.HcpcsRowFrom | migrate-omop/etl/Procedure.py:252-276 | an HCPCS mapped row built from a clean row and a matching lookup row, or none, copies the clean row with type 32821 and quantity 1 and takes its concepts from that lookup row, 0 when there is none |
| Procedure.HcpcsMappedRows | migrate-omop/etl/Procedure.py:252-276 | every HCPCS part row of lk_procedure_mapped comes from a clean row as above, and every clean row gives one |
| Procedure.IcdRowFrom | migrate-omop/etl/Procedure.py:278-303 | an ICD mapped row copies its clean row with type 32821 and its own vocabulary, and takes its concepts from a lookup row with the same code and vocabulary, 0 when there is none |
| Procedure.IcdMappedRows | migrate-omop/etl/Procedure.py:278-303 | every ICD part row comes from a clean row as above, and every clean row gives one |
| Procedure.ItemRowFrom | migrate-omop/etl/Procedure.py:305-330 | an item mapped row copies its clean row with type 32833, its itemid as code and 'proc.' before its unit, and takes its label and concepts from a lookup row of its itemid, 0 when there is none |
| Procedure.ItemsMappedRows | migrate-omop/etl/Procedure.py:305-330 | every item part row comes from a clean row as above, and every clean row gives one |
| Procedure.IcdJoinIgnoresDots | migrate-omop/etl/Procedure.py:299-302 | an ICD procedure joins an ICD lookup row exactly when both codes agree once their dots are removed and its version selects the concept's vocabulary |
| Procedure.RoundHalfEven | migrate-omop/etl/Procedure.py:376 | CAST(quantity AS INTEGER) is within one half of the quantity, and a tie goes to the even integer |
| Procedure.RoundHalfEvenUnique | migrate-omop/etl/Procedure.py:376 | that rounding is the only integer with those two properties, so a whole quantity is kept as it is |
| Procedure.OccurrenceRows | migrate-omop/etl/Procedure.py:367-399 | one insert of cdm_procedure_occurrence gives a row for exactly each feed row in the 'Procedure' domain, person whose source value is its subject as text and visit whose source value is its 'subject\|hadm' key |
| Procedure.OccurrenceSource | migrate-omop/etl/Procedure.py:388-398 | the feed row, person and visit one occurrence comes from |
| Procedure.OccurrenceColumns | migrate-omop/etl/Procedure.py:369-386 | every occurrence has modifier 0, unit 'procedure.' before its feed row's unit, and its feed row's concept, date, datetime, type, quantity and codes |
| Procedure.OccurrenceRowCopies | migrate-omop/etl/Procedure.py:369-386 | the same for one built row |
| Procedure.NoBarInIntText | migrate-omop/etl/Procedure.py:392-396 | an integer as text never holds a '\|' |
| Procedure.VisitKeyText | migrate-omop/etl/Procedure.py:396 | the visit key is the subject as text, '\|', and the visit part, empty when NULL |
| Procedure.BarSplit | migrate-omop/etl/Procedure.py:396 | text without a '\|' ahead of a '\|' is read back unambiguously |
| Procedure.VisitKeyDetermines | migrate-omop/etl/Procedure.py:393-396 | two equal visit keys have the same subject and the same visit part |
| Procedure.OccurrencePersons | migrate-omop/etl/Procedure.py:390-392 | joined with cdm_person as the person stage builds it, every occurrence carries the person_id of the patient of its feed row's subject |
| Procedure.SpecimenFeedConcepts | migrate-omop/etl/Procedure.py:435-468 | a specimen row sent to the 'Procedure' domain has a target, so its procedure concept is never NULL |
| Procedure.ChartFeedConcepts | migrate-omop/etl/Procedure.py:470-502 | a chart row sent to the 'Procedure' domain has a target, so its procedure concept is never NULL |
| Procedure.ProcedureTables.constructor | migrate-omop/etl/Procedure.py:514-528 | the schema starts with the three procedure tables empty |
| Procedure.ProcedureTables.CreateProcItemsClean | migrate-omop/etl/Procedure.py:91-138 | lk_proc_d_items_clean becomes the uncancelled procedure events followed by the plausible datetime events; nothing else changes |
| Procedure.ProcedureTables.CreateProcedureMapped | migrate-omop/etl/Procedure.py:249-337 | lk_procedure_mapped becomes the HCPCS rows, then the ICD rows, then the item rows |
| Procedure.ProcedureTables.CreateProcedureOccurrence | migrate-omop/etl/Procedure.py:340-511 | cdm_procedure_occurrence becomes the 'Procedure' occurrences of lk_procedure_mapped, then of the observation, specimen and chart tables, in that order |
| Procedure.ProcedureTables.MigrateLookup | migrate-omop/etl/Procedure.py:514-524 | after migrateLookup, lk_proc_d_items_clean and lk_procedure_mapped are those of the clean tables and lookups built from the source tables |
| Person.EarliestAdmission | migrate-omop/etl/Person.py:12-14 | ORDER BY admittime puts first an admission of the partition with an admittime no later than any other; there is none exactly when the partition is empty |
| Person.FirstEthnicityOfEarliest | migrate-omop/etl/Person.py:12-14 | a subject with admissions takes the ethnicity of one of its admissions that starts no later than any of its others |
| Person.SubjectRowFrom | migrate-omop/etl/Person.py:10-16 | a tmp_subject_ethnicity row is an admitted subject with that subject's first ethnicity |
| Person.SubjectEthnicityRows | migrate-omop/etl/Person.py:6-22 | every tmp_subject_ethnicity row carries the ethnicity of an admission of its subject with the earliest admittime, and every subject with admissions has a row |
| Person.SubjectEthnicityOnePerSubject | migrate-omop/etl/Person.py:10-14 | the DISTINCT leaves no subject twice |
| Person.EthnicityRowFrom | migrate-omop/etl/Person.py:36-57 | a lookup row of one subject has its first ethnicity as code; its source, if any, is a Race or Ethnicity concept whose code equals it ignoring case, and its target, if any, a standard, valid concept the source maps to |
| Person.EthnicityResolvedOf | migrate-omop/etl/Person.py:38-57 | a join result whose source names the code and whose target that source reaches makes a resolved lookup row |
| Person.EthnicityLookupSound | migrate-omop/etl/Person.py:33-63 | every lk_pat_ethnicity_concept row resolves the first ethnicity of some subject in that way |
| Person.EthnicityLookupComplete | migrate-omop/etl/Person.py:44-45 | every subject's first ethnicity has a lk_pat_ethnicity_concept row |
| Person.PersonRowFrom | migrate-omop/etl/Person.py:95-159 | a cdm_person row built from a patient and one choice of the two LEFT JOINs has the patient's id, anchor_year as year of birth, subject as text as source value, 8532 for 'F', 8507 for 'M', 0 otherwise; it is routed by the joined lookup row (ethnicity columns for an 'Ethnicity' target vocabulary, race columns for another, zeros and NULLs for none), and routes nothing only when no lookup row joined |
| Person.PersonRowsForFrom | migrate-omop/etl/Person.py:157-159 | every row one ethnicity row of a patient gives satisfies those rules |
| Person.PersonRowsOfFrom | migrate-omop/etl/Person.py:152-159 | every row a patient gives satisfies those rules, and there is at least one |
| Person.PersonCdmRows | migrate-omop/etl/Person.py:66-166 | every cdm_person row is built from a patient by those rules, and every patient has such a row |
| Person.PersonRowRoutedBy | migrate-omop/etl/Person.py:95-159 | the row a patient gets from one subject row and one lookup row it joins is in its rows, satisfies the rules, and is routed by that lookup row |
| Person.PersonRoutingComplete | migrate-omop/etl/Person.py:152-159 | for every patient, subject row of it and lookup row its first ethnicity joins, cdm_person has a row of the patient routed by that lookup row |
| Person.PersonCdmSource | migrate-omop/etl/Person.py:95-159 | the patient a cdm_person row is built from |
| Person.UnmappedPatientOneRow | migrate-omop/etl/Person.py:108-159 | a patient whose first ethnicity has no lookup row gets exactly one row, with every race and ethnicity column 0 or NULL |
| Person.PersonsWithPeriodRows | migrate-omop/etl/Person.py:169-184 | tmp_person keeps a person exactly when it has an observation period |
| Person.OnePeriodFilter | migrate-omop/etl/Person.py:176-178 | with one observation period per person at most one period joins a person |
| Person.PersonsWithOnePeriod | migrate-omop/etl/Person.py:169-184 | with one observation period per person the join keeps each person with a period once, in order |
| Person.FinalPassIdempotent | migrate-omop/etl/Person.py:217-220 | with one observation period per person, running the final pass again changes nothing |
| Person.PersonTables.constructor | migrate-omop/etl/Person.py:66-94 | the schema starts with cdm_person and tmp_person empty |
| Person.PersonTables.CreatePersonCdm | migrate-omop/etl/Person.py:66-166 | cdm_person is created empty and filled from the patients; tmp_person is unchanged |
| Person.PersonTables.CreatePersonTemp | migrate-omop/etl/Person.py:169-184 | tmp_person becomes the persons of cdm_person joined with their observation periods |
| Person.PersonTables.CreatePerson | migrate-omop/etl/Person.py:187-199 | cdm_person is truncated and refilled with tmp_person |
| Person.PersonTables.Migrate | migrate-omop/etl/Person.py:210-214 | after migrate, cdm_person is built from the patients, the subject ethnicities of the admissions and their lookup |
| Person.PersonTables.MigrateFinal | migrate-omop/etl/Person.py:217-220 | after migrateFinal, cdm_person holds exactly its earlier rows with an observation period, once per period, and tmp_person is dropped |
| Sql.IntToText | migrate-omop/etl/Person.py:123 | CAST(i AS TEXT) is never empty and starts with '-' exactly for a negative integer |
| Sql.IntToTextInjective | migrate-omop/etl/Procedure.py:392 | two integers cast to the same text are equal, so the person join on the subject as text matches exactly the same subject |
| Sql.Upper | migrate-omop/etl/Person.py:47 | UPPER keeps the length and upper-cases each ASCII letter in place |
| Sql.Lower | migrate-omop/Measurement.py:665 | LOWER keeps the length and lower-cases each ASCII letter in place |
| Sql.TrimSplit | migrate-omop/Measurement.py:102 | TRIM removes only leading and trailing spaces: the value is spaces, the trimmed value, then spaces |
| Sql.RemoveChar | migrate-omop/etl/Procedure.py:73 | REPLACE(s, c, '') holds no c, is no longer than s, and keeps every other character of s |
| Sql.Distinct | migrate-omop/etl/Person.py:10 | SELECT DISTINCT keeps exactly the rows of the input, none twice |
| Sql.DistinctAbsorbs | migrate-omop/Lookup.py:482-503 | appending rows already present leaves a GROUP BY over all columns as it was |
| Sql.InnerJoinMembership | migrate-omop/etl/Person.py:176-178 | an INNER JOIN holds exactly the rows built from a pair of rows that satisfies the ON condition |
| Sql.LeftJoinMembership | migrate-omop/etl/Person.py:154-159 | a LEFT JOIN holds exactly the rows built from an outer row and one of its partners, or NULL when it has none |
| Sql.LeftJoinKeeps | migrate-omop/etl/Person.py:154-156 | every outer row of a LEFT JOIN gives at least one row |

## Left out

- Random surrogate keys (`('x'||substr(md5(random()::text),1,8))::bit(32)::int`) are not modelled. These are measurement_id, specimen_id and procedure_occurrence_id: they are nondeterministic and nothing is promised about them. person_id is the parameter `ids`, a function of the patient, because the observation-period join needs it.
- The fuzzywuzzy scorer (`process.extract` with `fuzz.token_set_ratio`) is the function parameter `score`. Only the selection of the first best-scoring candidate around it is modelled.
- The two pandas queries of `createCustomMapping` (the distinct values and the candidate concepts) and the persisted maximum of tmp_custom_mapping are inputs to the loop. The persisted maximum is re-read every round, as in the source.
- FLOAT arithmetic is not modelled. The temperature plausibility test of the chart clean stage (Fahrenheit to Celsius, `BETWEEN 25 and 44`) is the predicate parameter `plausible`. A number read from a value stays its text (`Number.Parsed`); other numbers are `real`.
- The regex engine is not modelled. Only the specific patterns are written out, as scans over characters.
- Ties in `ROW_NUMBER` and `FIRST_VALUE` are not modelled: on equal start times or trace_ids the model takes the first in table order. Every lemma about these stages states only minimality.
- The result of `REGEXP_MATCH`/`REGEXP_MATCHES` is a one-element `text[]` array in the source. Where the source takes `[1]`, the model keeps the element. Where it casts the whole array, as for the chartevents valueuom, Chartevents.ArrayText writes out the array's text form (`{mg}`); the model does not cover other elements, or array text requiring escapes beyond the NULL case. The lab clean stage stores both `REGEXP_MATCHES` results whole (migrate-omop/Measurement.py:352-353, `text[]` columns value_operator and value_number), and the lab mapped stage copies them whole into operator_source_value and value_as_number (migrate-omop/Measurement.py:470 and 473). The model keeps the element in both columns (Labevents.LabeventsClean, Labevents.MappedCopies), so it does not model that these columns hold the array text or an array value.
- Chartevents.CharteventsClean: uses the corrected valueuom (Chartevents.CleanValueuom, the first element). The valueuom as written is Chartevents.CleanValueuomAsWritten; see Findings.
- Chartevents.ChartCodeDist: is built on the corrected value half (Chartevents.ValueGroupedByValue). As written, a value under several items gives several code rows, which repeat in lk_chartevents_concept and lk_chartevents_mapped. Chartevents.ValueHalvesSameCodes shows that both halves name the same codes.
- Sql.StrLe: orders text by character code, the C collation. This also holds for Sql.StrLt, Lookup.RankBounds, Lookup.SmallestName, Lookup.VocabularyIdsRanked and MeasurementUnits.BestBelowIsFirst. A database with a locale-aware default collation may order some strings otherwise, and that is not modelled.
- Microbiology.OrgLeaderOf, Microbiology.SpecLeaderOf, Microbiology.OrgLeaderUnique and Microbiology.SpecLeaderUnique require that no two microbiology events share a trace_id (`UniqueTraces`), since trace_id is each staged row's own identifier. Microbiology.MicroKeysUnique and Microbiology.MicroAdmission need the same. So do Microbiology.OrganismRowIsLeaders, Microbiology.OrganismRowsAreLeaders, Microbiology.OrgPartitionsHaveLeaders, Microbiology.OrganismTracesDistinct, Microbiology.SpecimenRowIsLeaders, Microbiology.SpecimenRowsAreLeaders, Microbiology.SpecPartitionsHaveLeaders, Microbiology.SpecimenTracesDistinct, Microbiology.AbRowsOfEvent, Microbiology.AbCleanFromEvents, MicroMapped.SpecimenPipelineKeepsLeaders, MicroMapped.OrganismPipelineKeepsLeaders and MicroMapped.AbPipelineKeepsEvents. AdmissionLink.CandidatesOfEvent and AdmissionLink.AdmissionInference require the same of the events whose admission they infer, and Labevents.LabAdmission requires it of the lab rows (`TraceUnique`). The SQL does not check this itself.
- Sql.Upper, Sql.Lower: fold only the ASCII letters. PostgreSQL's UPPER and LOWER fold every cased letter of the database encoding, so a non-ASCII ethnicity (Person.NamesEthnicity) or microbiology category (MicroMapped.DictionaryItem) may join differently. This is not modelled.
- Person.PersonsWithOnePeriod, Person.OnePeriodFilter and Person.FinalPassIdempotent assume at most one observation period per person. With several, the INNER JOIN of `createPersonTemp` repeats a person; Person.PersonsWithPeriodRows, which holds for any periods, speaks of membership only.
- `TO_DATE` and timestamp parsing are not modelled. Dates are (year, month, day) and timestamps add seconds, ordered lexicographically. `CAST(… AS DATE)` keeps the date part.
- PostgreSQL's `NOT NULL` column constraints, and the 32-bit range of `INTEGER` columns, are not modelled. Integers are unbounded.
- Loading and DDL are not modelled: the `COPY` loaders and `createLookup*` copies of `Lookup.py`, the parsing of the CSV file `createTmpCustomMapping` reads (its rows are an input; that they are appended to tmp_custom_mapping is modelled, and Lookup.ReloadDoublesEdges shows what loading twice does), and every `drop table` and `CREATE TABLE` with columns only. Dropping a table is not modelled either, including `dropTmpTables`, `dropTmpCustomVocabularyDist`, `dropSubjectEthnicityTemp` and `dropPersonTemp`; only the final `tmpPerson == []` of `Person.PersonTables.MigrateFinal` stands for it.
- The visit, observation, condition, drug and device stages are not part of this model, and neither are the fact relationships and the unload. cdm_visit_occurrence, lk_observation_mapped and cdm_observation_period are inputs.
- `Import.py`, `Unload.py`, `Run.py`, `Config.py` and `TestArgs.py` are not part of this model. They cover CSV ingestion, column projection, connection handling and argument parsing.
- Logging, the database connection and transactions are left out. Each statement is a function of the tables it reads.

## Findings

| source | as written | input that shows it | evidently intended | confidence | as-written member | corrected member |
|---|---|---|---|---|---|---|
| migrate-omop/Measurement.py:156-167 | the value half of `createCharteventsCodeTemp` groups by `value, source_code, source_label`; in PostgreSQL these names bind to the input columns of lk_chartevents_clean, so one value under several items gives several rows with the same source_code | two clean rows with value 'Yes' under two different items (`Chartevents.YesUnderTwoItems`) give two rows with source_code 'Yes' | one row per distinct value, counting every row with that value | not executed | Chartevents.ValueGroupedByItemToo | Chartevents.ValueGroupedByValue |
| migrate-omop/Measurement.py:109 | the clean stage casts the whole `text[]` result of `REGEXP_MATCH(src.value, '[a-z]+')` to `character varying(20)`, so valueuom holds the array text `{mg}` rather than `mg`, and the unit join of lk_chartevents_mapped then finds no unit | value '5 mg' (`Patterns.FiveMgLetters`) under a unit table holding 'mg' gives valueuom '{mg}' and unit_concept_id 0 (`ChartUnitExample.MgStoredInBraces`, `ChartUnitExample.MgUnitMissed`) | take the first element, `(REGEXP_MATCH(src.value, '[a-z]+'))[1]`, as line 104 does for valuenum | not executed | Chartevents.SplitUnitMissesItsUnit | Chartevents.SplitUnitFindsItsUnit |
