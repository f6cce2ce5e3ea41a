/**
 * The admin results table: a case-insensitive search over names and ids
 * that tolerates both field spellings the backend uses, the grade and
 * pass badge of each row, and the statistics over the rows shown.
 */
module ResultsTab {
  import opened Common
  import opened Grading

  /**
   * A result row as the table receives it. Names may be missing, ids may
   * arrive as `subjectId`/`studentId` or as the `subject_id`/`student_id`
   * spellings (the `Alt` fields), and the percentage may be missing or null.
   */
  datatype ResultRow = ResultRow(
    studentName: Option<string>,
    subjectName: Option<string>,
    subjectId: JsVal,
    subjectIdAlt: JsVal,
    studentId: JsVal,
    studentIdAlt: JsVal,
    percentage: Field<Number>)

  /** `String(a ?? b ?? '').toLowerCase()`. */
  function IdText(a: JsVal, b: JsVal): string {
    Lower(JsString(Coalesce(Coalesce(a, b), JStr(""))))
  }

  /** The search predicate: the lower-cased term occurs in one of the four lower-cased fields. */
  predicate Keep(row: ResultRow, term: string) {
    var search := Lower(term);
    || Contains(Lower(row.studentName.GetOr("")), search)
    || Contains(Lower(row.subjectName.GetOr("")), search)
    || Contains(IdText(row.subjectId, row.subjectIdAlt), search)
    || Contains(IdText(row.studentId, row.studentIdAlt), search)
  }

  /** The rows the table shows for a search term. */
  function FilterResults(rows: seq<ResultRow>, term: string): (r: seq<ResultRow>)
    ensures |r| <= |rows|
    ensures forall x :: x in r <==> x in rows && Keep(x, term)
  {
    Filter(rows, (x: ResultRow) => Keep(x, term))
  }

  /** Filtering keeps the order of the rows: it distributes over concatenation. */
  lemma FilterResultsInOrder(a: seq<ResultRow>, b: seq<ResultRow>, term: string)
    ensures FilterResults(a + b, term) == FilterResults(a, term) + FilterResults(b, term)
  {
    FilterAppend(a, b, (x: ResultRow) => Keep(x, term));
  }

  /** An empty search shows every row. */
  lemma EmptySearchKeepsAll(rows: seq<ResultRow>)
    ensures FilterResults(rows, "") == rows
  {
    forall i | 0 <= i < |rows|
      ensures Keep(rows[i], "")
    {
      assert Lower("") == "";
      assert StartsWith(Lower(rows[i].studentName.GetOr("")), "");
    }
    FilterKeepsAll(rows, (x: ResultRow) => Keep(x, ""));
  }

  lemma LowerIdempotent(s: string)
    ensures Lower(Lower(s)) == Lower(s)
  {
    assert forall i :: 0 <= i < |s| ==> LowerChar(LowerChar(s[i])) == LowerChar(s[i]);
  }

  /** The search ignores the case of the term: a term and its lower-case form select the same rows. */
  lemma SearchIgnoresCase(row: ResultRow, term: string)
    ensures Keep(row, term) <==> Keep(row, Lower(term))
  {
    LowerIdempotent(term);
  }

  /** A row is found by its student id even when it arrives under the other spelling. */
  lemma FoundByAltStudentId(row: ResultRow, id: string)
    requires row.studentId.Undefined? && row.studentIdAlt == JStr(id)
    ensures Keep(row, id)
  {
    var t := IdText(row.studentId, row.studentIdAlt);
    assert t == Lower(id);
    assert StartsWith(t, Lower(id));
  }

  /** The grade badge of a row: `percentage ?? 0`. */
  function RowGrade(row: ResultRow): Grade {
    GradeOf(row.percentage.OrElse(Finite(0)))
  }

  /** The pass badge of a row at the default passing score: `percentage ?? 0`. */
  predicate RowPassed(row: ResultRow) {
    Passed(row.percentage.OrElse(Finite(0)), DefaultPassingScore)
  }

  /**
   * The raw percentage as the statistics read it: `sum + undefined` is NaN,
   * `sum + null` adds 0, and both compare below 70.
   */
  function StatsValue(row: ResultRow): Number {
    match row.percentage
    case Absent => NaN
    case Null => Finite(0)
    case Present(p) => p
  }

  predicate CountsAsPassed(row: ResultRow) {
    PassesDefault(StatsValue(row))
  }

  /**
   * The statistics over the shown rows: their number, the rows whose raw
   * percentage reaches 70, the rest, and the rounded mean of the raw
   * percentages.
   */
  function TableStats(shown: seq<ResultRow>): (r: Stats)
    ensures r.total == |shown| && r.passed + r.failed == r.total
    ensures r.passed == |Positions(shown, CountsAsPassed)|
    ensures shown != [] ==> r.average == RoundedMean(Map(shown, StatsValue))
    ensures shown == [] ==> r == Stats(0, 0, 0, Finite(0))
  {
    var ps := Map(shown, StatsValue);
    assert Positions(ps, PassesDefault) == Positions(shown, CountsAsPassed);
    CalculateStats(ps)
  }

  /** A row passes exactly when its grade is C or better. */
  lemma RowBadgesAgree(row: ResultRow)
    ensures RowPassed(row) <==> Rank(RowGrade(row)) >= Rank(C)
  {
    PassedIffAtLeastC(row.percentage.OrElse(Finite(0)));
  }

  /**
   * A row without a percentage field is shown as 0% with grade F and
   * Failed, but it makes the table's average NaN.
   */
  lemma MissingPercentage(shown: seq<ResultRow>, i: nat)
    requires i < |shown| && shown[i].percentage.Absent?
    ensures RowGrade(shown[i]) == F && !RowPassed(shown[i])
    ensures TableStats(shown).average.NaN?
  {
    var ps := Map(shown, StatsValue);
    assert ps[i].NaN?;
    StatsAverage(ps);
  }

  /**
   * A row whose percentage is null is shown as 0% with grade F and Failed,
   * and the statistics treat it exactly as a row with 0%: the average stays
   * a number.
   */
  lemma NullPercentage(shown: seq<ResultRow>, i: nat)
    requires i < |shown| && shown[i].percentage.Null?
    ensures RowGrade(shown[i]) == F && !RowPassed(shown[i])
    ensures TableStats(shown) == TableStats(shown[i := shown[i].(percentage := Present(Finite(0)))])
  {
    var zero := shown[i := shown[i].(percentage := Present(Finite(0)))];
    assert Map(shown, StatsValue) == Map(zero, StatsValue);
  }

  /** The null case and the missing case differ: one null row keeps the average at 0, one missing row makes it NaN. */
  lemma NullAndMissingDiffer(row: ResultRow)
    ensures TableStats([row.(percentage := Null)]).average == Finite(0)
    ensures TableStats([row.(percentage := Absent)]).average.NaN?
  {
    var ps := Map([row.(percentage := Null)], StatsValue);
    assert ps == [Finite(0)];
    assert Sum(ps) == Finite(0) by {
      assert ps[..0] == [];
    }
    assert RoundDiv(0, 1) == 0;
    var qs := Map([row.(percentage := Absent)], StatsValue);
    assert qs[0].NaN?;
    StatsAverage(qs);
  }
}
