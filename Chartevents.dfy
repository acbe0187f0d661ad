/**
 * The chartevents mapper: lk_chartevents_clean (the value/unit split and the
 * temperature plausibility filter), tmp_chartevents_code_dist,
 * lk_chartevents_concept, lk_chartevents_mapped and
 * lk_chartevents_condition_mapped.
 */
module Chartevents {
  import opened Sql
  import opened Source
  import opened Vocabulary
  import opened MeasurementUnits
  import opened Patterns

  // ---------------------------------------------------------------------------
  // lk_chartevents_clean

  datatype ChartClean = ChartClean(
    subjectId: int,
    hadmId: Option<int>,
    stayId: Option<int>,
    itemid: int,
    sourceCode: string,
    sourceLabel: Option<string>,
    startDatetime: Timestamp,
    value: Option<string>,
    valuenum: Option<Number>,
    valueuom: Option<string>,
    unitId: string,
    prov: Provenance)

  /** REGEXP_MATCH(TRIM(value), '^...$') IS NOT NULL; NULL for a NULL value. */
  predicate SplitsUnit(value: Option<string>)
  {
    value.Some? && HasUnitSuffix(Trim(value.value))
  }

  /** The valuenum column: the leading number of a value with a unit, else the stored valuenum. */
  function CleanValuenum(value: Option<string>, valuenum: Option<real>): Option<Number>
  {
    if SplitsUnit(value) then
      match FirstNumber(value.value)
      case Some(n) => Some(Parsed(n))
      case None => None
    else if valuenum.Some? then Some(Stored(valuenum.value))
    else None
  }

  /** The valueuom column: the letters of a value with a unit, cut to 20 characters, else the stored valueuom. */
  function CleanValueuom(value: Option<string>, valueuom: Option<string>): Option<string>
  {
    if SplitsUnit(value) then
      match FirstLetters(value.value)
      case Some(u) => Some(Truncate(u, 20))
      case None => None
    else valueuom
  }

  /**
   * The text of a one-element text[] holding u: `{u}`, with the element in double quotes when
   * it reads as NULL. The letters REGEXP_MATCH finds are lower-case, so only "null" is quoted.
   */
  function ArrayText(u: string): (r: string)
    ensures |r| >= 2 && r[0] == '{' && r[|r| - 1] == '}'
    ensures u != "null" ==> r[1..|r| - 1] == u
  {
    if u == "null" then "{\"" + u + "\"}" else "{" + u + "}"
  }

  /**
   * The valueuom column as the statement writes it: the split branch casts the whole array
   * REGEXP_MATCH returns, without taking its first element, so a unit 'mg' is stored as '{mg}'.
   */
  function CleanValueuomAsWritten(value: Option<string>, valueuom: Option<string>): Option<string>
  {
    if SplitsUnit(value) then
      match FirstLetters(value.value)
      case Some(u) => Some(Truncate(ArrayText(u), 20))
      case None => None
    else valueuom
  }

  function TrimOpt(s: Option<string>): Option<string>
  {
    if s.Some? then Some(Trim(s.value)) else None
  }

  /** valueuom LIKE '%F%'; NULL is not like anything. */
  predicate IsFahrenheit(uom: Option<string>)
  {
    uom.Some? && 'F' in uom.value
  }

  /**
   * The WHERE clause over the joined item: a label not ending in 'Temperature', or a
   * temperature whose value, read in Celsius, is plausible. `plausible(f, x)` stands for
   * the FLOAT test `(x - 32) * 5 / 9 BETWEEN 25 AND 44` when f, `x BETWEEN 25 AND 44`
   * otherwise. A NULL label or a NULL valuenum makes the condition NULL: the row goes.
   */
  predicate KeepChart(e: ChartEvent, itemLabel: Option<string>, plausible: (bool, real) -> bool)
  {
    itemLabel.Some? &&
    (!EndsWith(itemLabel.value, "Temperature") ||
     (e.valuenum.Some? && plausible(IsFahrenheit(e.valueuom), e.valuenum.value)))
  }

  function CleanRow(e: ChartEvent, d: DItem): ChartClean
  {
    ChartClean(e.subjectId, e.hadmId, e.stayId, e.itemid, IntToText(e.itemid), d.itemLabel, e.charttime,
               TrimOpt(e.value), CleanValuenum(e.value, e.valuenum), CleanValueuom(e.value, e.valueuom),
               "chartevents", e.prov)
  }

  predicate JoinsItem(e: ChartEvent, d: DItem, plausible: (bool, real) -> bool)
  {
    d.itemid == e.itemid && KeepChart(e, d.itemLabel, plausible)
  }

  function JoinsItemOf(e: ChartEvent, plausible: (bool, real) -> bool): DItem -> bool
  {
    (d: DItem) => JoinsItem(e, d, plausible)
  }

  function CleanRowOf(e: ChartEvent): DItem -> ChartClean
  {
    (d: DItem) => CleanRow(e, d)
  }

  function CleanRowsOf(e: ChartEvent, items: seq<DItem>, plausible: (bool, real) -> bool): seq<ChartClean>
  {
    Map(Filter(items, JoinsItemOf(e, plausible)), CleanRowOf(e))
  }

  /** createCharteventsClean: src_chartevents INNER JOIN src_d_items ON itemid, filtered. */
  function CharteventsClean(events: seq<ChartEvent>, items: seq<DItem>, plausible: (bool, real) -> bool)
    : seq<ChartClean>
  {
    FlatMap(events, (e: ChartEvent) => CleanRowsOf(e, items, plausible))
  }

  /** A clean row is a chart event joined with its item that passes the filter, and every such pair gives one. */
  lemma CharteventsCleanRows(events: seq<ChartEvent>, items: seq<DItem>, plausible: (bool, real) -> bool)
    ensures forall r :: r in CharteventsClean(events, items, plausible) <==>
              exists e, d :: e in events && d in items && JoinsItem(e, d, plausible) && r == CleanRow(e, d)
  {
    forall e | e in events {
      MapMembership(Filter(items, JoinsItemOf(e, plausible)), CleanRowOf(e));
    }
  }

  /**
   * The value/unit split of a clean row: a trimmed value of the form number-spaces-letters
   * gives valuenum its leading number and valueuom its letters (at most 20 of them); any
   * other value, NULL included, keeps the event's own valuenum and valueuom.
   */
  lemma SplitColumns(value: Option<string>, valuenum: Option<real>, valueuom: Option<string>)
    ensures SplitsUnit(value) ==>
              var t := Trim(value.value);
              CleanValuenum(value, valuenum) == Some(Parsed(t[..NumberPrefix(t)])) &&
              CleanValueuom(value, valueuom) == Some(Truncate(t[UnitStart(t)..], 20))
    ensures !SplitsUnit(value) ==>
              CleanValueuom(value, valueuom) == valueuom &&
              (CleanValuenum(value, valuenum).Some? <==> valuenum.Some?) &&
              (valuenum.Some? ==> CleanValuenum(value, valuenum) == Some(Stored(valuenum.value)))
  {
    if SplitsUnit(value) {
      ValueSplitMatches(value.value);
    }
  }

  /**
   * As written, a split value's unit is stored in braces: it starts with '{', is never the
   * letters themselves, and so joins no unit whose code does not start with '{'.
   */
  lemma {:induction false} SplitUnitInBraces(value: Option<string>, valueuom: Option<string>)
    requires SplitsUnit(value)
    ensures var t := Trim(value.value);
            var w := CleanValueuomAsWritten(value, valueuom);
            w == Some(Truncate(ArrayText(t[UnitStart(t)..]), 20)) && |w.value| > 0 && w.value[0] == '{' &&
            w != CleanValueuom(value, valueuom)
  {
    var t := Trim(value.value);
    var u := t[UnitStart(t)..];
    assert FirstLetters(value.value) == Some(u) by {
      ValueSplitMatches(value.value);
    }
    assert IsLowerLetter(u[0]) by {
      UnitLetters(t);
    }
    var w := Truncate(ArrayText(u), 20);
    var c := Truncate(u, 20);
    assert w != [] && w[0] == '{';
    assert c != [] && c[0] == u[0];
  }

  /** A split value whose letters are a short unit u: '{u}' as written, u with the first element taken. */
  lemma ShortUnitBothWays(value: Option<string>, u: string)
    requires SplitsUnit(value) && FirstLetters(value.value) == Some(u)
    requires u != "null" && |u| <= 18
    ensures CleanValueuomAsWritten(value, None) == Some("{" + u + "}")
    ensures CleanValueuom(value, None) == Some(u)
  {
  }

  /**
   * Every split value loses its unit as written: when no unit code starts with '{', the stored
   * '{...}' joins no unit and unit_concept_id is 0.
   */
  lemma {:induction false} SplitUnitMissesItsUnit(value: Option<string>, valueuom: Option<string>,
                                                  units: seq<UnitConceptRow>)
    requires SplitsUnit(value)
    requires forall u :: u in units ==> u.sourceCode == [] || u.sourceCode[0] != '{'
    ensures UnitMatches(units, CleanValueuomAsWritten(value, valueuom)) == [None]
    ensures UnitConceptId(CleanValueuomAsWritten(value, valueuom), None) == Some(0)
  {
    var w := CleanValueuomAsWritten(value, valueuom);
    assert w.Some? && |w.value| > 0 && w.value[0] == '{' by {
      SplitUnitInBraces(value, valueuom);
    }
    BracedUnitJoinsNothing(units, w);
  }

  /** A valueuom starting with '{' joins no unit whose code does not start with '{'. */
  lemma BracedUnitJoinsNothing(units: seq<UnitConceptRow>, w: Option<string>)
    requires w.Some? && |w.value| > 0 && w.value[0] == '{'
    requires forall u :: u in units ==> u.sourceCode == [] || u.sourceCode[0] != '{'
    ensures UnitMatches(units, w) == [None]
    ensures UnitConceptId(w, None) == Some(0)
  {
    forall u | u in units
      ensures !UnitNamed(u, w)
    {
      assert u.sourceCode == [] || u.sourceCode[0] != w.value[0];
    }
    UnitMatchesNone(units, w);
  }

  /** With the first element taken, a unit named by the letters joins the row and gives its target. */
  lemma SplitUnitFindsItsUnit(value: Option<string>, valueuom: Option<string>,
                              units: seq<UnitConceptRow>, x: UnitConceptRow)
    requires x in units && CleanValueuom(value, valueuom) == Some(x.sourceCode)
    ensures Some(x) in UnitMatches(units, CleanValueuom(value, valueuom))
    ensures UnitConceptId(CleanValueuom(value, valueuom), Some(x)) == Some(Coalesce(x.targetConceptId, 0))
  {
    assert UnitNamed(x, CleanValueuom(value, valueuom));
  }

  /** A temperature reading survives the clean stage only with a plausible value. */
  lemma TemperatureFilter(events: seq<ChartEvent>, items: seq<DItem>, plausible: (bool, real) -> bool)
    ensures forall e, d :: e in events && d in items && d.itemid == e.itemid ==>
              (d.itemLabel.Some? && !EndsWith(d.itemLabel.value, "Temperature") ==>
                 CleanRow(e, d) in CharteventsClean(events, items, plausible))
    ensures forall r :: r in CharteventsClean(events, items, plausible) ==>
              r.sourceLabel.Some? &&
              (EndsWith(r.sourceLabel.value, "Temperature") ==>
                 exists e :: e in events && e.valuenum.Some? && e.prov == r.prov &&
                             plausible(IsFahrenheit(e.valueuom), e.valuenum.value))
  {
    CharteventsCleanRows(events, items, plausible);
  }

  // ---------------------------------------------------------------------------
  // tmp_chartevents_code_dist

  /** A row of tmp_chartevents_code_dist: a code to look up, and how many clean rows carry it. */
  datatype CodeDist = CodeDist(
    itemid: Option<int>,
    sourceCode: Option<string>,
    sourceLabel: Option<string>,
    sourceVocabularyId: string,
    rowCount: nat)

  const ChartVocabulary := "mimiciv_meas_chart"
  const ValueVocabulary := "mimiciv_meas_chartevents_value"

  /** The GROUP BY key of the item half: itemid, source_code, source_label. */
  datatype ItemKey = ItemKey(itemid: int, sourceCode: string, sourceLabel: Option<string>)

  function ItemKeyOf(r: ChartClean): ItemKey
  {
    ItemKey(r.itemid, r.sourceCode, r.sourceLabel)
  }

  predicate HasItemKey(r: ChartClean, k: ItemKey)
  {
    ItemKeyOf(r) == k
  }

  function ItemKeyIs(k: ItemKey): ChartClean -> bool
  {
    (r: ChartClean) => HasItemKey(r, k)
  }

  function ItemGroup(clean: seq<ChartClean>, k: ItemKey): CodeDist
  {
    CodeDist(Some(k.itemid), Some(k.sourceCode), k.sourceLabel, ChartVocabulary,
             Count(clean, ItemKeyIs(k)))
  }

  function ItemGroupOf(clean: seq<ChartClean>): ItemKey -> CodeDist
  {
    (k: ItemKey) => ItemGroup(clean, k)
  }

  /** The first half: one row per (itemid, source_code, source_label), in 'mimiciv_meas_chart'. */
  function ItemGroups(clean: seq<ChartClean>): seq<CodeDist>
  {
    Map(Distinct(Map(clean, ItemKeyOf)), ItemGroupOf(clean))
  }

  predicate HasValue(r: ChartClean, v: Option<string>)
  {
    r.value == v
  }

  function ValueIs(v: Option<string>): ChartClean -> bool
  {
    (r: ChartClean) => HasValue(r, v)
  }

  function ValueGroup(clean: seq<ChartClean>, v: Option<string>): CodeDist
  {
    CodeDist(None, v, v, ValueVocabulary, Count(clean, ValueIs(v)))
  }

  function ValueGroupOf(clean: seq<ChartClean>): Option<string> -> CodeDist
  {
    (v: Option<string>) => ValueGroup(clean, v)
  }

  function ValueOf(r: ChartClean): Option<string>
  {
    r.value
  }

  /** The second half as evidently intended: one row per distinct value (NULL included), in 'mimiciv_meas_chartevents_value'. */
  function ValueGroups(clean: seq<ChartClean>): seq<CodeDist>
  {
    Map(Distinct(Map(clean, ValueOf)), ValueGroupOf(clean))
  }

  /**
   * The GROUP BY key the second half is written with: `value, source_code, source_label`,
   * where PostgreSQL reads the two ambiguous names as the input columns (the item's code
   * and label), not as the output aliases of value.
   */
  datatype WrittenKey = WrittenKey(value: Option<string>, sourceCode: string, sourceLabel: Option<string>)

  function WrittenKeyOf(r: ChartClean): WrittenKey
  {
    WrittenKey(r.value, r.sourceCode, r.sourceLabel)
  }

  predicate HasWrittenKey(r: ChartClean, k: WrittenKey)
  {
    WrittenKeyOf(r) == k
  }

  function WrittenKeyIs(k: WrittenKey): ChartClean -> bool
  {
    (r: ChartClean) => HasWrittenKey(r, k)
  }

  function WrittenGroup(clean: seq<ChartClean>, k: WrittenKey): CodeDist
  {
    CodeDist(None, k.value, k.value, ValueVocabulary, Count(clean, WrittenKeyIs(k)))
  }

  function WrittenGroupOf(clean: seq<ChartClean>): WrittenKey -> CodeDist
  {
    (k: WrittenKey) => WrittenGroup(clean, k)
  }

  /** The second half as written: one row per (value, item code, item label). */
  function ValueGroupsAsWritten(clean: seq<ChartClean>): seq<CodeDist>
  {
    Map(Distinct(Map(clean, WrittenKeyOf)), WrittenGroupOf(clean))
  }

  /** createCharteventsCodeTemp, with the value half grouped by value alone. */
  function ChartCodeDist(clean: seq<ChartClean>): seq<CodeDist>
  {
    ItemGroups(clean) + ValueGroups(clean)
  }

  /** The distinct values of the clean table are exactly the values its rows carry. */
  lemma ValueKeys(clean: seq<ChartClean>)
    ensures forall r :: r in clean ==> r.value in Distinct(Map(clean, ValueOf))
    ensures forall v :: v in Distinct(Map(clean, ValueOf)) ==> exists r :: r in clean && r.value == v
  {
    forall r | r in clean ensures r.value in Map(clean, ValueOf) {
      var i :| 0 <= i < |clean| && clean[i] == r;
      assert Map(clean, ValueOf)[i] == r.value;
    }
    MapMembership(clean, ValueOf);
  }

  /** The distinct item keys of the clean table are exactly the keys its rows carry. */
  lemma ItemKeys(clean: seq<ChartClean>)
    ensures forall r :: r in clean ==> ItemKeyOf(r) in Distinct(Map(clean, ItemKeyOf))
    ensures forall k :: k in Distinct(Map(clean, ItemKeyOf)) ==> exists r :: r in clean && ItemKeyOf(r) == k
  {
    forall r | r in clean ensures ItemKeyOf(r) in Map(clean, ItemKeyOf) {
      var i :| 0 <= i < |clean| && clean[i] == r;
      assert Map(clean, ItemKeyOf)[i] == ItemKeyOf(r);
    }
    MapMembership(clean, ItemKeyOf);
  }

  /**
   * The value half, as intended, has one row per distinct value of the clean table, NULL
   * included, so a value looks up one concept row per target.
   */
  lemma ValueGroupsOnePerValue(clean: seq<ChartClean>)
    ensures var g := ValueGroups(clean);
            forall i, j :: 0 <= i < j < |g| ==> g[i].sourceCode != g[j].sourceCode
    ensures forall r :: r in clean ==> ValueGroup(clean, r.value) in ValueGroups(clean)
    ensures forall d :: d in ValueGroups(clean) ==> exists r :: r in clean && d == ValueGroup(clean, r.value)
  {
    var vs := Distinct(Map(clean, ValueOf));
    var g := ValueGroups(clean);
    ValueKeys(clean);
    MapMembership(vs, ValueGroupOf(clean));
    forall i, j | 0 <= i < j < |g| ensures g[i].sourceCode != g[j].sourceCode {
      assert g[i] == ValueGroup(clean, vs[i]) && g[j] == ValueGroup(clean, vs[j]);
    }
  }

  /** Two value rows name the same code, with the same label, item and vocabulary. */
  predicate SameCode(d: CodeDist, e: CodeDist)
  {
    d.sourceCode == e.sourceCode && d.sourceLabel == e.sourceLabel && d.itemid == e.itemid &&
    d.sourceVocabularyId == e.sourceVocabularyId
  }

  lemma WrittenRowHasValueRow(clean: seq<ChartClean>, d: CodeDist)
    requires d in ValueGroupsAsWritten(clean)
    ensures exists e :: e in ValueGroups(clean) && SameCode(d, e)
  {
    var ks := Distinct(Map(clean, WrittenKeyOf));
    MapMembership(ks, WrittenGroupOf(clean));
    var k :| k in ks && d == WrittenGroup(clean, k);
    MapMembership(clean, WrittenKeyOf);
    var r :| r in clean && k == WrittenKeyOf(r);
    ValueGroupsOnePerValue(clean);
    assert ValueGroup(clean, r.value) in ValueGroups(clean);
  }

  lemma ValueRowHasWrittenRow(clean: seq<ChartClean>, e: CodeDist)
    requires e in ValueGroups(clean)
    ensures exists d :: d in ValueGroupsAsWritten(clean) && SameCode(d, e)
  {
    ValueGroupsOnePerValue(clean);
    var r :| r in clean && e == ValueGroup(clean, r.value);
    var ks := Distinct(Map(clean, WrittenKeyOf));
    assert WrittenKeyOf(r) in ks by {
      MapMembership(clean, WrittenKeyOf);
    }
    MapMembership(ks, WrittenGroupOf(clean));
    assert WrittenGroup(clean, WrittenKeyOf(r)) in ValueGroupsAsWritten(clean);
  }

  /**
   * The value half as written and as intended name the same codes: every row of either has a
   * row of the other with the same value as source_code and source_label, so only how often a
   * code occurs and its row_count differ.
   */
  lemma ValueHalvesSameCodes(clean: seq<ChartClean>)
    ensures forall d :: d in ValueGroupsAsWritten(clean) ==> exists e :: e in ValueGroups(clean) && SameCode(d, e)
    ensures forall e :: e in ValueGroups(clean) ==> exists d :: d in ValueGroupsAsWritten(clean) && SameCode(d, e)
  {
    forall d | d in ValueGroupsAsWritten(clean) ensures exists e :: e in ValueGroups(clean) && SameCode(d, e) {
      WrittenRowHasValueRow(clean, d);
    }
    forall e | e in ValueGroups(clean) ensures exists d :: d in ValueGroupsAsWritten(clean) && SameCode(d, e) {
      ValueRowHasWrittenRow(clean, e);
    }
  }

  /** A value row counts the clean rows carrying its value, of which there is at least one. */
  lemma ValueGroupCounts(clean: seq<ChartClean>, r: ChartClean)
    requires r in clean
    ensures var d := ValueGroup(clean, r.value);
            d.itemid.None? && d.sourceCode == r.value && d.sourceLabel == r.value &&
            d.sourceVocabularyId == ValueVocabulary &&
            d.rowCount == |Filter(clean, ValueIs(r.value))| && d.rowCount > 0
  {
    assert r in Filter(clean, ValueIs(r.value));
  }

  /** The item half has one row per item key, and every clean row's item key is counted. */
  lemma ItemGroupsOnePerItem(clean: seq<ChartClean>)
    ensures var g := ItemGroups(clean);
            forall i, j :: 0 <= i < j < |g| ==>
              (g[i].itemid, g[i].sourceCode, g[i].sourceLabel) != (g[j].itemid, g[j].sourceCode, g[j].sourceLabel)
    ensures forall r :: r in clean ==> ItemGroup(clean, ItemKeyOf(r)) in ItemGroups(clean)
    ensures forall d :: d in ItemGroups(clean) ==> exists r :: r in clean && d == ItemGroup(clean, ItemKeyOf(r))
  {
    var ks := Distinct(Map(clean, ItemKeyOf));
    var g := ItemGroups(clean);
    ItemKeys(clean);
    MapMembership(ks, ItemGroupOf(clean));
    forall i, j | 0 <= i < j < |g|
      ensures (g[i].itemid, g[i].sourceCode, g[i].sourceLabel) != (g[j].itemid, g[j].sourceCode, g[j].sourceLabel)
    {
      assert g[i] == ItemGroup(clean, ks[i]) && g[j] == ItemGroup(clean, ks[j]);
    }
  }

  /** Two chart events of items 1 and 2 that both read 'Yes'. */
  const YesUnderTwoItems := [
    ChartClean(10, None, None, 1, "1", Some("Alarm"), Timestamp(Date(2150, 1, 1), 0), Some("Yes"), None, None,
               "chartevents", Provenance(None, None, 1)),
    ChartClean(10, None, None, 2, "2", Some("Pain"), Timestamp(Date(2150, 1, 1), 0), Some("Yes"), None, None,
               "chartevents", Provenance(None, None, 2))]

  /**
   * As written, the value 'Yes' recorded under two items gives two value rows with the same
   * source_code; each resolves to the same concepts, so every chart row reading 'Yes'
   * LEFT JOINs its value concept twice and appears twice in lk_chartevents_mapped.
   */
  lemma ValueGroupedByItemToo()
    ensures var g := ValueGroupsAsWritten(YesUnderTwoItems);
            |g| == 2 && g[0].sourceCode == Some("Yes") && g[1].sourceCode == Some("Yes")
  {
    var c := YesUnderTwoItems;
    var k0, k1 := WrittenKeyOf(c[0]), WrittenKeyOf(c[1]);
    assert Map(c, WrittenKeyOf) == [k0, k1];
    DistinctOfDistinct([k0, k1]);
  }

  /** The two chart rows of the example carry one distinct value, 'Yes'. */
  lemma YesIsTheOnlyValue()
    ensures Distinct(Map(YesUnderTwoItems, ValueOf)) == [Some("Yes")]
  {
    var yes: Option<string> := Some("Yes");
    assert Map(YesUnderTwoItems, ValueOf) == [yes, yes];
    DistinctOfDistinct([yes]);
    assert [yes, yes][..1] == [yes];
  }

  /** Both chart rows of the example read 'Yes'. */
  lemma YesCountsBoth()
    ensures Count(YesUnderTwoItems, ValueIs(Some("Yes"))) == 2
  {
    FilterAll(YesUnderTwoItems, ValueIs(Some("Yes")));
  }

  /** Grouped by value alone, 'Yes' gives one row counting both chart rows. */
  lemma ValueGroupedByValue()
    ensures var g := ValueGroups(YesUnderTwoItems);
            |g| == 1 && g[0].sourceCode == Some("Yes") && g[0].rowCount == 2
  {
    YesIsTheOnlyValue();
    YesCountsBoth();
    assert ValueGroups(YesUnderTwoItems) == Map([Some("Yes")], ValueGroupOf(YesUnderTwoItems));
  }

  // ---------------------------------------------------------------------------
  // lk_chartevents_concept

  /** A row of lk_chartevents_concept: a code row with one resolution of its code. */
  datatype ChartConcept = ChartConcept(code: CodeDist, res: Resolution)

  function ConceptRowsOf(d: CodeDist, concepts: seq<Concept>, rels: seq<ConceptRelationship>): seq<ChartConcept>
  {
    Map(Resolve(concepts, rels, CodeMatch(d.sourceCode, d.sourceVocabularyId), IsStandardValid),
        (res: Resolution) => ChartConcept(d, res))
  }

  /** createCharteventsConcept: every code row through the resolution chain, standard and valid targets only. */
  function CharteventsConcept(dist: seq<CodeDist>, concepts: seq<Concept>, rels: seq<ConceptRelationship>)
    : seq<ChartConcept>
  {
    FlatMap(dist, (d: CodeDist) => ConceptRowsOf(d, concepts, rels))
  }

  /**
   * Code resolution: a concept row's source concept carries the row's code in the row's
   * vocabulary, and a target is a standard, valid concept the source maps to; no code row
   * is lost, and one whose code matches no concept keeps a row with NULL concepts.
   */
  lemma ChartConceptResolution(dist: seq<CodeDist>, concepts: seq<Concept>, rels: seq<ConceptRelationship>)
    ensures forall r :: r in CharteventsConcept(dist, concepts, rels) ==>
              r.code in dist &&
              (r.res.source.Some? ==> r.res.source.value in concepts &&
                                      HasCode(r.res.source.value, r.code.sourceCode, r.code.sourceVocabularyId)) &&
              (r.res.target.Some? ==> r.res.source.Some? && r.res.target.value in concepts &&
                                      IsStandardValid(r.res.target.value) &&
                                      Reaches(r.res.source.value, r.res.target.value, rels))
    ensures forall d :: d in dist ==> exists r :: r in CharteventsConcept(dist, concepts, rels) && r.code == d
  {
    forall r | r in CharteventsConcept(dist, concepts, rels)
      ensures r.code in dist &&
              (r.res.source.Some? ==> r.res.source.value in concepts &&
                                      HasCode(r.res.source.value, r.code.sourceCode, r.code.sourceVocabularyId)) &&
              (r.res.target.Some? ==> r.res.source.Some? && r.res.target.value in concepts &&
                                      IsStandardValid(r.res.target.value) &&
                                      Reaches(r.res.source.value, r.res.target.value, rels))
    {
      var d :| d in dist && r in ConceptRowsOf(d, concepts, rels);
      var sourceOk := CodeMatch(d.sourceCode, d.sourceVocabularyId);
      MapMembership(Resolve(concepts, rels, sourceOk, IsStandardValid), (res: Resolution) => ChartConcept(d, res));
      ResolveSound(concepts, rels, sourceOk, IsStandardValid);
    }
    forall d | d in dist ensures exists r :: r in CharteventsConcept(dist, concepts, rels) && r.code == d {
      var sourceOk := CodeMatch(d.sourceCode, d.sourceVocabularyId);
      ResolveNonEmpty(concepts, rels, sourceOk, IsStandardValid);
      var res := Resolve(concepts, rels, sourceOk, IsStandardValid)[0];
      assert ConceptRowsOf(d, concepts, rels)[0] == ChartConcept(d, res);
    }
  }

  // ---------------------------------------------------------------------------
  // lk_chartevents_mapped

  datatype ChartMapped = ChartMapped(
    subjectId: int,
    hadmId: Option<int>,
    stayId: Option<int>,
    startDatetime: Timestamp,
    typeConceptId: int,
    itemid: int,
    sourceCode: string,
    sourceLabel: Option<string>,
    sourceVocabularyId: Option<string>,
    sourceDomainId: Option<string>,
    sourceConceptId: Option<int>,
    targetDomainId: Option<string>,
    targetConceptId: Option<int>,
    valueSourceValue: Option<string>,
    valueAsConceptId: Option<int>,
    valueAsNumber: Option<Number>,
    unitSourceValue: Option<string>,
    unitConceptId: Option<int>,
    unitId: string,
    prov: Provenance)

  /** c_main: the item's own code in 'mimiciv_meas_chart'. */
  predicate IsMainConcept(c: ChartConcept, src: ChartClean)
  {
    SqlEq(c.code.sourceCode, Some(src.sourceCode)) && c.code.sourceVocabularyId == ChartVocabulary
  }

  /** c_value: the row's value in 'mimiciv_meas_chartevents_value', resolved into the 'Meas Value' domain. */
  predicate IsValueConcept(c: ChartConcept, src: ChartClean)
  {
    SqlEq(c.code.sourceCode, src.value) && c.code.sourceVocabularyId == ValueVocabulary &&
    IsValue(TargetDomainId(c.res), "Meas Value")
  }

  function MainOf(src: ChartClean): ChartConcept -> bool
  {
    (c: ChartConcept) => IsMainConcept(c, src)
  }

  function ValueConceptOf(src: ChartClean): ChartConcept -> bool
  {
    (c: ChartConcept) => IsValueConcept(c, src)
  }

  function MainVocabularyId(m: Option<ChartConcept>): Option<string>
  {
    if m.Some? then Some(m.value.code.sourceVocabularyId) else None
  }

  function MainResolution(m: Option<ChartConcept>): Resolution
  {
    if m.Some? then m.value.res else Resolution(None, None)
  }

  /**
   * The value concept column: set only for a non-NULL value without a number, to the target of
   * the joined value concept, or 0 when no value concept joined or the joined one has no target.
   */
  function ValueAsConceptId(src: ChartClean, cv: Option<ChartConcept>): (r: Option<int>)
    ensures r.Some? <==> src.valuenum.None? && src.value.Some?
    ensures r.Some? && cv.Some? && TargetConceptId(cv.value.res).Some? ==> r == TargetConceptId(cv.value.res)
    ensures r.Some? && (cv.None? || TargetConceptId(cv.value.res).None?) ==> r == Some(0)
  {
    if src.valuenum.None? && src.value.Some? then
      Some(Coalesce(if cv.Some? then TargetConceptId(cv.value.res) else None, 0))
    else None
  }

  function MappedRow(src: ChartClean, main: Option<ChartConcept>, cv: Option<ChartConcept>,
                     uc: Option<UnitConceptRow>): ChartMapped
  {
    var m := MainResolution(main);
    ChartMapped(src.subjectId, src.hadmId, src.stayId, src.startDatetime, 32817, src.itemid, src.sourceCode,
                src.sourceLabel, MainVocabularyId(main), SourceDomainId(m), SourceConceptId(m),
                TargetDomainId(m), TargetConceptId(m),
                if src.valuenum.None? then src.value else None,
                ValueAsConceptId(src, cv),
                src.valuenum, src.valueuom, UnitConceptId(src.valueuom, uc),
                "meas." + src.unitId, src.prov)
  }

  /** The unit join of one (row, item concept, value concept) combination. */
  function RowsFor(src: ChartClean, main: Option<ChartConcept>, cv: Option<ChartConcept>, units: seq<UnitConceptRow>)
    : seq<ChartMapped>
  {
    Map(UnitMatches(units, src.valueuom), (uc: Option<UnitConceptRow>) => MappedRow(src, main, cv, uc))
  }

  /** The value-concept join, then the unit join, of one (row, item concept) combination. */
  function RowsForMain(src: ChartClean, main: Option<ChartConcept>, conceptRows: seq<ChartConcept>,
                       units: seq<UnitConceptRow>): seq<ChartMapped>
  {
    FlatMap(LeftMatches(conceptRows, ValueConceptOf(src)), (cv: Option<ChartConcept>) => RowsFor(src, main, cv, units))
  }

  function MappedRowsOf(src: ChartClean, conceptRows: seq<ChartConcept>, units: seq<UnitConceptRow>)
    : seq<ChartMapped>
  {
    FlatMap(LeftMatches(conceptRows, MainOf(src)), (main: Option<ChartConcept>) => RowsForMain(src, main, conceptRows, units))
  }

  /** createCharteventsMapped: each clean row LEFT JOINed to its item concept, its value concept and its unit. */
  function CharteventsMapped(clean: seq<ChartClean>, conceptRows: seq<ChartConcept>, units: seq<UnitConceptRow>)
    : seq<ChartMapped>
  {
    FlatMap(clean, (src: ChartClean) => MappedRowsOf(src, conceptRows, units))
  }

  /** The columns a mapped row copies from its clean row. */
  predicate MappedCopies(r: ChartMapped, src: ChartClean)
  {
    r.subjectId == src.subjectId && r.hadmId == src.hadmId && r.stayId == src.stayId &&
    r.startDatetime == src.startDatetime && r.itemid == src.itemid && r.sourceCode == src.sourceCode &&
    r.sourceLabel == src.sourceLabel && r.prov == src.prov && r.typeConceptId == 32817 && r.unitId == "meas." + src.unitId &&
    r.valueAsNumber == src.valuenum && r.unitSourceValue == src.valueuom &&
    r.valueSourceValue == (if src.valuenum.None? then src.value else None)
  }

  /**
   * value_as_concept_id: set exactly for a non-NULL value without a number; a value other than 0
   * is the target of a value concept of the row, and 0 means that no value concept matched or
   * that a matching one has no target (or the target 0).
   */
  ghost predicate MappedValueConcept(r: ChartMapped, src: ChartClean, conceptRows: seq<ChartConcept>)
  {
    (r.valueAsConceptId.Some? <==> src.valuenum.None? && src.value.Some?) &&
    (r.valueAsConceptId.Some? && r.valueAsConceptId != Some(0) ==>
       exists c :: c in conceptRows && IsValueConcept(c, src) && TargetConceptId(c.res) == r.valueAsConceptId) &&
    (r.valueAsConceptId == Some(0) ==>
       (forall c :: c in conceptRows ==> !IsValueConcept(c, src)) ||
       exists c :: c in conceptRows && IsValueConcept(c, src) &&
                   (TargetConceptId(c.res).None? || TargetConceptId(c.res) == Some(0)))
  }

  /**
   * unit_concept_id: set exactly when there is a unit, to the target of a unit it names, or 0
   * when it names no unit or a named one has no target (or the target 0).
   */
  ghost predicate MappedUnitConcept(r: ChartMapped, src: ChartClean, units: seq<UnitConceptRow>)
  {
    (r.unitConceptId.Some? <==> src.valueuom.Some?) &&
    (r.unitConceptId.Some? && r.unitConceptId != Some(0) ==>
       exists u :: u in units && UnitNamed(u, src.valueuom) && u.targetConceptId == r.unitConceptId) &&
    (r.unitConceptId == Some(0) ==>
       (forall u :: u in units ==> !UnitNamed(u, src.valueuom)) ||
       exists u :: u in units && UnitNamed(u, src.valueuom) &&
                   (u.targetConceptId.None? || u.targetConceptId == Some(0)))
  }

  /**
   * The c_main columns: the source vocabulary, the source domain and concept and the target
   * domain and concept all come from one concept row of the item's own code, or, when no such
   * row exists, all five are NULL; the target domain is NULL together with the target.
   */
  ghost predicate MappedMain(r: ChartMapped, src: ChartClean, conceptRows: seq<ChartConcept>)
  {
    (r.targetDomainId.Some? <==> r.targetConceptId.Some?) &&
    ((exists c :: c in conceptRows && IsMainConcept(c, src) &&
        r.sourceVocabularyId == Some(c.code.sourceVocabularyId) && r.sourceDomainId == SourceDomainId(c.res) &&
        r.sourceConceptId == SourceConceptId(c.res) && r.targetDomainId == TargetDomainId(c.res) &&
        r.targetConceptId == TargetConceptId(c.res)) ||
     ((forall c :: c in conceptRows ==> !IsMainConcept(c, src)) &&
        r.sourceVocabularyId.None? && r.sourceDomainId.None? && r.sourceConceptId.None? &&
        r.targetDomainId.None? && r.targetConceptId.None?))
  }

  /** What a mapped row takes from its clean row and its joins, with each conditional column set only under its condition. */
  ghost predicate MappedFrom(r: ChartMapped, src: ChartClean, conceptRows: seq<ChartConcept>,
                             units: seq<UnitConceptRow>)
  {
    MappedCopies(r, src) && MappedValueConcept(r, src, conceptRows) && MappedUnitConcept(r, src, units) &&
    MappedMain(r, src, conceptRows)
  }

  lemma MappedValueFrom(src: ChartClean, conceptRows: seq<ChartConcept>, cv: Option<ChartConcept>,
                        row: ChartMapped)
    requires cv in LeftMatches(conceptRows, ValueConceptOf(src))
    requires row.valueAsConceptId == ValueAsConceptId(src, cv)
    ensures MappedValueConcept(row, src, conceptRows)
  {
    if cv.Some? {
      assert Some(cv.value) in LeftMatches(conceptRows, ValueConceptOf(src));
    }
  }

  lemma MappedUnitFrom(src: ChartClean, units: seq<UnitConceptRow>, uc: Option<UnitConceptRow>, row: ChartMapped)
    requires uc in UnitMatches(units, src.valueuom)
    requires row.unitConceptId == UnitConceptId(src.valueuom, uc)
    ensures MappedUnitConcept(row, src, units)
  {
    if uc.Some? {
      assert Some(uc.value) in UnitMatches(units, src.valueuom);
    }
  }

  lemma MappedMainFrom(src: ChartClean, conceptRows: seq<ChartConcept>, main: Option<ChartConcept>,
                       row: ChartMapped)
    requires main in LeftMatches(conceptRows, MainOf(src))
    requires row.sourceVocabularyId == MainVocabularyId(main)
    requires row.sourceDomainId == SourceDomainId(MainResolution(main))
    requires row.sourceConceptId == SourceConceptId(MainResolution(main))
    requires row.targetDomainId == TargetDomainId(MainResolution(main))
    requires row.targetConceptId == TargetConceptId(MainResolution(main))
    ensures MappedMain(row, src, conceptRows)
  {
    if main.Some? {
      assert Some(main.value) in LeftMatches(conceptRows, MainOf(src));
    } else {
      assert None in LeftMatches(conceptRows, MainOf(src));
    }
  }

  lemma MappedRowFrom(src: ChartClean, conceptRows: seq<ChartConcept>, units: seq<UnitConceptRow>,
                      main: Option<ChartConcept>, cv: Option<ChartConcept>, uc: Option<UnitConceptRow>)
    requires main in LeftMatches(conceptRows, MainOf(src))
    requires cv in LeftMatches(conceptRows, ValueConceptOf(src))
    requires uc in UnitMatches(units, src.valueuom)
    ensures MappedFrom(MappedRow(src, main, cv, uc), src, conceptRows, units)
  {
    var row := MappedRow(src, main, cv, uc);
    MappedValueFrom(src, conceptRows, cv, row);
    MappedUnitFrom(src, units, uc, row);
    MappedMainFrom(src, conceptRows, main, row);
  }

  /** Each (item concept, value concept, unit) combination of a clean row gives one mapped row. */
  lemma RowsForFrom(src: ChartClean, main: Option<ChartConcept>, cv: Option<ChartConcept>,
                    conceptRows: seq<ChartConcept>, units: seq<UnitConceptRow>)
    requires main in LeftMatches(conceptRows, MainOf(src))
    requires cv in LeftMatches(conceptRows, ValueConceptOf(src))
    ensures forall r :: r in RowsFor(src, main, cv, units) ==> MappedFrom(r, src, conceptRows, units)
  {
    forall r | r in RowsFor(src, main, cv, units) ensures MappedFrom(r, src, conceptRows, units) {
      var i :| 0 <= i < |RowsFor(src, main, cv, units)| && RowsFor(src, main, cv, units)[i] == r;
      var uc := UnitMatches(units, src.valueuom)[i];
      MappedRowFrom(src, conceptRows, units, main, cv, uc);
    }
  }

  lemma RowsForMainFrom(src: ChartClean, main: Option<ChartConcept>, conceptRows: seq<ChartConcept>,
                        units: seq<UnitConceptRow>)
    requires main in LeftMatches(conceptRows, MainOf(src))
    ensures forall r :: r in RowsForMain(src, main, conceptRows, units) ==> MappedFrom(r, src, conceptRows, units)
  {
    forall r | r in RowsForMain(src, main, conceptRows, units) ensures MappedFrom(r, src, conceptRows, units) {
      var cv :| cv in LeftMatches(conceptRows, ValueConceptOf(src)) && r in RowsFor(src, main, cv, units);
      RowsForFrom(src, main, cv, conceptRows, units);
    }
  }

  lemma MappedRowsOfFrom(src: ChartClean, conceptRows: seq<ChartConcept>, units: seq<UnitConceptRow>)
    ensures forall r :: r in MappedRowsOf(src, conceptRows, units) ==> MappedFrom(r, src, conceptRows, units)
  {
    forall r | r in MappedRowsOf(src, conceptRows, units) ensures MappedFrom(r, src, conceptRows, units) {
      var main :| main in LeftMatches(conceptRows, MainOf(src)) && r in RowsForMain(src, main, conceptRows, units);
      RowsForMainFrom(src, main, conceptRows, units);
    }
  }

  /**
   * Every mapped row comes from a clean row, copies its identity and value columns, sets
   * value_source_value only when valuenum is NULL, value_as_concept_id only when valuenum is
   * NULL and the value is not, and unit_concept_id only when there is a unit; the concepts it
   * names come from the matching joins, and 0 stands for a miss.
   */
  lemma ChartMappedRows(clean: seq<ChartClean>, conceptRows: seq<ChartConcept>, units: seq<UnitConceptRow>)
    ensures forall r :: r in CharteventsMapped(clean, conceptRows, units) ==>
              exists src :: src in clean && MappedFrom(r, src, conceptRows, units)
  {
    forall r | r in CharteventsMapped(clean, conceptRows, units)
      ensures exists src :: src in clean && MappedFrom(r, src, conceptRows, units)
    {
      var src :| src in clean && r in MappedRowsOf(src, conceptRows, units);
      MappedRowsOfFrom(src, conceptRows, units);
    }
  }

  /** The LEFT JOINs lose no chart row: each clean row yields at least one mapped row. */
  lemma ChartMappedKeepsRows(clean: seq<ChartClean>, conceptRows: seq<ChartConcept>, units: seq<UnitConceptRow>)
    ensures forall src :: src in clean ==>
              exists r :: r in CharteventsMapped(clean, conceptRows, units) && MappedFrom(r, src, conceptRows, units)
  {
    forall src | src in clean
      ensures exists r :: r in CharteventsMapped(clean, conceptRows, units) && MappedFrom(r, src, conceptRows, units)
    {
      var main := LeftMatches(conceptRows, MainOf(src))[0];
      var cv := LeftMatches(conceptRows, ValueConceptOf(src))[0];
      var uc := UnitMatches(units, src.valueuom)[0];
      var r := MappedRow(src, main, cv, uc);
      MappedRowFrom(src, conceptRows, units, main, cv, uc);
      assert r == RowsFor(src, main, cv, units)[0];
      assert r in RowsForMain(src, main, conceptRows, units);
      assert r in MappedRowsOf(src, conceptRows, units);
    }
  }

  /**
   * Every value concept of a chart value without a number reaches the mapped table: some row
   * of that clean row carries its target, or 0 when it has none.
   */
  lemma ChartValueConceptsReached(clean: seq<ChartClean>, conceptRows: seq<ChartConcept>, units: seq<UnitConceptRow>)
    ensures forall src, c :: src in clean && c in conceptRows && IsValueConcept(c, src) &&
                             src.valuenum.None? && src.value.Some? ==>
              exists r :: r in CharteventsMapped(clean, conceptRows, units) && MappedFrom(r, src, conceptRows, units) &&
                          r.valueAsConceptId == Some(Coalesce(TargetConceptId(c.res), 0))
  {
    forall src, c | src in clean && c in conceptRows && IsValueConcept(c, src) && src.valuenum.None? && src.value.Some?
      ensures exists r :: r in CharteventsMapped(clean, conceptRows, units) && MappedFrom(r, src, conceptRows, units) &&
                          r.valueAsConceptId == Some(Coalesce(TargetConceptId(c.res), 0))
    {
      var main := LeftMatches(conceptRows, MainOf(src))[0];
      var cv := Some(c);
      var uc := UnitMatches(units, src.valueuom)[0];
      var r := MappedRow(src, main, cv, uc);
      MappedRowFrom(src, conceptRows, units, main, cv, uc);
      assert r == RowsFor(src, main, cv, units)[0];
      assert r in RowsForMain(src, main, conceptRows, units);
      assert r in MappedRowsOf(src, conceptRows, units);
    }
  }

  // ---------------------------------------------------------------------------
  // lk_chartevents_condition_mapped

  datatype ConditionMapped = ConditionMapped(
    subjectId: int,
    hadmId: Option<int>,
    stayId: Option<int>,
    startDatetime: Timestamp,
    sourceCode: Option<string>,
    sourceVocabularyId: string,
    sourceConceptId: Option<int>,
    targetDomainId: Option<string>,
    targetConceptId: Option<int>,
    unitId: string,
    prov: Provenance)

  /** c_main of the condition stage: the row's value, resolved into the 'Condition' domain. */
  predicate IsConditionConcept(c: ChartConcept, src: ChartClean)
  {
    SqlEq(c.code.sourceCode, src.value) && c.code.sourceVocabularyId == ValueVocabulary &&
    IsValue(TargetDomainId(c.res), "Condition")
  }

  function ConditionRow(src: ChartClean, c: ChartConcept): ConditionMapped
  {
    ConditionMapped(src.subjectId, src.hadmId, src.stayId, src.startDatetime, src.value, c.code.sourceVocabularyId,
                    SourceConceptId(c.res), TargetDomainId(c.res), TargetConceptId(c.res),
                    "cond." + src.unitId, src.prov)
  }

  function ConditionOf(src: ChartClean): ChartConcept -> bool
  {
    (c: ChartConcept) => IsConditionConcept(c, src)
  }

  function ConditionRowOf(src: ChartClean): ChartConcept -> ConditionMapped
  {
    (c: ChartConcept) => ConditionRow(src, c)
  }

  function ConditionRowsOf(src: ChartClean, conceptRows: seq<ChartConcept>): seq<ConditionMapped>
  {
    Map(Filter(conceptRows, ConditionOf(src)), ConditionRowOf(src))
  }

  /** createCharteventsConditionMapped: clean rows INNER JOINed with a value concept in the 'Condition' domain. */
  function CharteventsConditionMapped(clean: seq<ChartClean>, conceptRows: seq<ChartConcept>): seq<ConditionMapped>
  {
    FlatMap(clean, (src: ChartClean) => ConditionRowsOf(src, conceptRows))
  }

  /**
   * A chart row enters the condition table exactly when its value resolves into the
   * 'Condition' domain, once per such resolution, with unit_id 'cond.' + its unit_id.
   */
  lemma ConditionRows(clean: seq<ChartClean>, conceptRows: seq<ChartConcept>)
    ensures forall r :: r in CharteventsConditionMapped(clean, conceptRows) <==>
              exists src, c :: src in clean && c in conceptRows && IsConditionConcept(c, src) && r == ConditionRow(src, c)
    ensures forall r :: r in CharteventsConditionMapped(clean, conceptRows) ==>
              r.targetDomainId == Some("Condition") && r.sourceVocabularyId == ValueVocabulary &&
              exists src :: src in clean && r.unitId == "cond." + src.unitId && r.sourceCode == src.value
  {
    forall src | src in clean {
      MapMembership(Filter(conceptRows, ConditionOf(src)),
                    ConditionRowOf(src));
    }
  }
}
