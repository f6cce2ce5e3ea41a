/**
 * The earlier admin results table, which works on typed attempts: the
 * search looks at the student and subject names only, and the grade, pass
 * badge and statistics read the attempt's percentage directly.
 */
module LegacyResultsTab {
  import opened Common
  import opened ExamTypes
  import opened Grading
  import ResultsTab

  /** The search predicate: the lower-cased term occurs in the lower-cased student or subject name. */
  predicate Keep(a: Attempt, term: string) {
    Contains(Lower(a.studentName), Lower(term)) || Contains(Lower(a.subjectName), Lower(term))
  }

  /** The attempts the table shows for a search term, in order. */
  function FilterResults(attempts: seq<Attempt>, term: string): (r: seq<Attempt>)
    ensures |r| <= |attempts|
    ensures forall x :: x in r <==> x in attempts && Keep(x, term)
  {
    Filter(attempts, (a: Attempt) => Keep(a, term))
  }

  /** Filtering keeps the order of the attempts. */
  lemma FilterResultsInOrder(a: seq<Attempt>, b: seq<Attempt>, term: string)
    ensures FilterResults(a + b, term) == FilterResults(a, term) + FilterResults(b, term)
  {
    FilterAppend(a, b, (x: Attempt) => Keep(x, term));
  }

  function PercentageOf(a: Attempt): Number {
    a.percentage
  }

  predicate AttemptPasses(a: Attempt) {
    PassesDefault(a.percentage)
  }

  /**
   * The statistics over the shown attempts: their number, the attempts at
   * or above 70, the rest, and the rounded mean percentage.
   */
  function TableStats(shown: seq<Attempt>): (r: Stats)
    ensures r.total == |shown| && r.passed + r.failed == r.total
    ensures r.passed == |Positions(shown, AttemptPasses)|
    ensures shown != [] ==> r.average == RoundedMean(Map(shown, PercentageOf))
    ensures shown == [] ==> r == Stats(0, 0, 0, Finite(0))
  {
    var ps := Map(shown, PercentageOf);
    assert Positions(ps, PassesDefault) == Positions(shown, AttemptPasses);
    CalculateStats(ps)
  }

  /** An attempt as the newer table's row. */
  function AsRow(a: Attempt): ResultsTab.ResultRow {
    ResultsTab.ResultRow(Some(a.studentName), Some(a.subjectName), JStr(a.subjectId), Undefined,
      JStr(a.studentId), Undefined, Present(a.percentage))
  }

  /** Every attempt the earlier search finds, the newer search finds too. */
  lemma NewerSearchFindsMore(a: Attempt, term: string)
    ensures Keep(a, term) ==> ResultsTab.Keep(AsRow(a), term)
  {
  }

  /** The newer search also finds an attempt by its student id, which the earlier one does not. */
  lemma OnlyNewerSearchFindsIds()
    ensures var a := Attempt("a1", "s7", "Ann", "1", "Mathematics", map[], 1, 1, Finite(100),
                            "completed", 0, None, "");
      !Keep(a, "s7") && ResultsTab.Keep(AsRow(a), "s7")
  {
    var a := Attempt("a1", "s7", "Ann", "1", "Mathematics", map[], 1, 1, Finite(100), "completed", 0, None, "");
    LegacySearchMissesId(a);
    NewerSearchFindsId(a);
  }

  lemma LegacySearchMissesId(a: Attempt)
    requires a.studentName == "Ann" && a.subjectName == "Mathematics"
    ensures !Keep(a, "s7")
  {
    assert Lower("s7") == "s7";
    assert Lower("Ann") == "ann";
    assert Lower("Mathematics") == "mathematics";
    NoSevenNoMatch("ann");
    NoSevenNoMatch("mathematics");
  }

  lemma NewerSearchFindsId(a: Attempt)
    requires a.studentId == "s7"
    ensures ResultsTab.Keep(AsRow(a), "s7")
  {
    assert Lower("s7") == "s7";
    assert StartsWith(ResultsTab.IdText(JStr("s7"), Undefined), "s7");
  }

  lemma {:induction false} NoSevenNoMatch(s: string)
    requires forall i :: 0 <= i < |s| ==> s[i] != '7'
    ensures !Contains(s, "s7")
  {
    if |s| >= 2 {
      assert s[..2][1] == s[1] != "s7"[1];
    }
    if s != [] {
      NoSevenNoMatch(s[1..]);
    }
  }

  /**
   * For typed attempts both tables show the same grade, the same pass
   * badge and the same statistics.
   */
  lemma TablesAgree(shown: seq<Attempt>, i: nat)
    requires i < |shown|
    ensures ResultsTab.RowGrade(AsRow(shown[i])) == GradeOf(shown[i].percentage)
    ensures ResultsTab.RowPassed(AsRow(shown[i])) == Passed(shown[i].percentage, DefaultPassingScore)
    ensures ResultsTab.TableStats(Map(shown, AsRow)) == TableStats(shown)
  {
    var rows := Map(shown, AsRow);
    assert Map(rows, ResultsTab.StatsValue) == Map(shown, PercentageOf);
  }
}
