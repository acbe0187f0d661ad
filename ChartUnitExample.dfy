/**
 * The valueuom column of a chart value whose unit is 'mg', such as "5 mg"
 * (Patterns.FiveMgLetters), and the unit join of that column against a unit table that
 * holds the unit 'mg' alone (Measurement.py, createCharteventsClean and the unit join of
 * createChartEventsMapped).
 */
module ChartUnitExample {
  import opened Sql
  import Patterns
  import opened MeasurementUnits
  import opened Chartevents

  /**
   * As written the row keeps '{mg}' for the unit of a value whose letters are 'mg'; with the
   * first element taken it keeps 'mg'.
   */
  lemma MgStoredInBraces(value: Option<string>)
    requires SplitsUnit(value) && Patterns.FirstLetters(value.value) == Some("mg")
    ensures CleanValueuomAsWritten(value, None) == Some("{mg}")
    ensures CleanValueuom(value, None) == Some("mg")
  {
    MgText();
    ShortUnitBothWays(value, "mg");
  }

  /** 'mg' is short, does not read as NULL, and in braces is '{mg}'. */
  lemma MgText()
    ensures "mg" != "null" && |"mg"| <= 18 && "{" + "mg" + "}" == "{mg}"
  {
    assert |"mg"| == 2 && |"null"| == 4;
    var x := "{" + "mg" + "}";
    assert |x| == 4 && x[0] == '{' && x[1] == 'm' && x[2] == 'g' && x[3] == '}';
  }

  /**
   * Against a unit table holding 'mg', '{mg}' finds no unit and unit_concept_id is 0, while
   * 'mg' finds the unit and takes its target.
   */
  lemma MgUnitMissed(mg: UnitConceptRow)
    requires mg.sourceCode == "mg" && mg.targetConceptId.Some?
    ensures UnitMatches([mg], Some("{mg}")) == [None] && UnitConceptId(Some("{mg}"), None) == Some(0)
    ensures UnitMatches([mg], Some("mg")) == [Some(mg)]
    ensures UnitConceptId(Some("mg"), Some(mg)) == mg.targetConceptId
  {
    BracedUnitJoinsNothing([mg], Some("{mg}"));
    UnitMatchesOne(mg, Some("mg"));
  }
}
