/**
 * Grading shared by the result tables, the result page and the
 * dashboards: letter grades at 90/80/70/60, the pass rule, the running sum
 * of percentages with JavaScript's NaN, the rounded mean and the summary
 * statistics of a results table.
 */
module Grading {
  import opened Common

  datatype Grade = A | B | C | D | F

  /** The order of grades, F lowest. */
  function Rank(g: Grade): nat {
    match g
    case A => 4
    case B => 3
    case C => 2
    case D => 1
    case F => 0
  }

  /** `getGrade`: the first threshold the percentage reaches; NaN reaches none. */
  function GradeOf(p: Number): Grade {
    if p.AtLeast(90) then A
    else if p.AtLeast(80) then B
    else if p.AtLeast(70) then C
    else if p.AtLeast(60) then D
    else F
  }

  /** The percentage from which a grade is awarded; F from anywhere. */
  function Floor(g: Grade): int {
    match g
    case A => 90
    case B => 80
    case C => 70
    case D => 60
    case F => 0
  }

  /**
   * A grade other than F is awarded exactly when the percentage reaches its
   * floor and not the floor of the next grade up.
   */
  lemma GradeBands(p: Number, g: Grade)
    requires g != F
    ensures GradeOf(p) == g <==> p.AtLeast(Floor(g)) && (g == A || !p.AtLeast(Floor(g) + 10))
  {
  }

  /** A higher percentage never earns a lower grade. */
  lemma GradeMonotone(x: int, y: int)
    requires x <= y
    ensures Rank(GradeOf(Finite(x))) <= Rank(GradeOf(Finite(y)))
  {
  }

  const DefaultPassingScore := 70

  /** `percentage >= passingScore`; false for NaN. */
  predicate Passed(p: Number, passingScore: int) {
    p.AtLeast(passingScore)
  }

  /** At the default passing score, passing is getting a grade of C or better. */
  lemma PassedIffAtLeastC(p: Number)
    ensures Passed(p, DefaultPassingScore) <==> Rank(GradeOf(p)) >= Rank(C)
  {
  }

  // ---------------------------------------------------------------------
  // Sums and means

  /** JavaScript `+` on numbers: NaN absorbs everything. */
  function Plus(a: Number, b: Number): Number {
    if a.Finite? && b.Finite? then Finite(a.value + b.value) else NaN
  }

  /** `ps.reduce((sum, p) => sum + p, 0)`: NaN exactly when some element is. */
  function Sum(ps: seq<Number>): (r: Number)
    ensures r.NaN? <==> exists i :: 0 <= i < |ps| && ps[i].NaN?
  {
    if ps == [] then Finite(0) else Plus(Sum(ps[..|ps| - 1]), ps[|ps| - 1])
  }

  /**
   * `Math.round(sum / ps.length)` for a non-empty list: NaN when some
   * element is, otherwise the integer nearest the mean, halves rounded up.
   */
  function RoundedMean(ps: seq<Number>): (r: Number)
    requires ps != []
    ensures r.NaN? <==> exists i :: 0 <= i < |ps| && ps[i].NaN?
    ensures r.Finite? ==> 2 * r.value * |ps| - |ps| <= 2 * Sum(ps).value < 2 * r.value * |ps| + |ps|
  {
    match Sum(ps)
    case NaN => NaN
    case Finite(s) => Finite(RoundDiv(s, |ps|))
  }

  /** The dashboards' average score: the rounded mean, or none ('N/A') without attempts. */
  function AverageScore(ps: seq<Number>): (r: Option<Number>)
    ensures r.None? <==> ps == []
    ensures r.Some? ==> r.value == RoundedMean(ps)
  {
    if ps == [] then None else Some(RoundedMean(ps))
  }

  /** Every element finite and within lo..hi. */
  predicate Within(ps: seq<Number>, lo: int, hi: int) {
    forall i :: 0 <= i < |ps| ==> ps[i].Finite? && lo <= ps[i].value <= hi
  }

  lemma {:induction false} SumWithin(ps: seq<Number>, lo: int, hi: int)
    requires Within(ps, lo, hi)
    ensures Sum(ps).Finite? && lo * |ps| <= Sum(ps).value <= hi * |ps|
  {
    if ps != [] {
      var n := |ps|;
      var prefix := ps[..n - 1];
      assert Within(prefix, lo, hi) by {
        forall i | 0 <= i < |prefix|
          ensures prefix[i].Finite? && lo <= prefix[i].value <= hi
        {
          assert prefix[i] == ps[i];
        }
      }
      SumWithin(prefix, lo, hi);
      var s := Sum(prefix).value;
      var x := ps[n - 1].value;
      assert Sum(ps) == Finite(s + x);
      MulStep(lo, n);
      MulStep(hi, n);
    }
  }

  lemma MulStep(k: int, n: int)
    ensures k * n == k * (n - 1) + k
  {
  }

  /** The rounded mean of percentages within lo..hi is within lo..hi. */
  lemma MeanWithin(ps: seq<Number>, lo: int, hi: int)
    requires ps != [] && Within(ps, lo, hi)
    ensures RoundedMean(ps).Finite? && lo <= RoundedMean(ps).value <= hi
  {
    SumWithin(ps, lo, hi);
    RoundDivBounds(Sum(ps).value, |ps|, lo, hi);
  }

  lemma {:induction false} SumConstant(c: int, n: nat)
    ensures Sum(seq(n, _ => Finite(c))) == Finite(c * n)
  {
    if n > 0 {
      var ps := seq(n, _ => Finite(c));
      assert ps[..n - 1] == seq(n - 1, _ => Finite(c));
      SumConstant(c, n - 1);
    }
  }

  /** Everyone scoring the same percentage averages to that percentage. */
  lemma MeanOfConstant(c: int, n: nat)
    requires n > 0
    ensures RoundedMean(seq(n, _ => Finite(c))) == Finite(c)
  {
    SumConstant(c, n);
    RoundDivExact(c, n);
  }

  // ---------------------------------------------------------------------
  // Results table statistics

  datatype Stats = Stats(total: nat, passed: nat, failed: nat, average: Number)

  predicate PassesDefault(p: Number) {
    Passed(p, DefaultPassingScore)
  }

  /**
   * `calculateStats`: zeros for an empty table; otherwise the count, the
   * entries at or above 70, the rest, and the rounded mean.
   */
  function CalculateStats(ps: seq<Number>): (r: Stats)
    ensures ps == [] ==> r == Stats(0, 0, 0, Finite(0))
    ensures r.total == |ps| && r.passed + r.failed == r.total
    ensures r.passed == |Positions(ps, PassesDefault)|
    ensures ps != [] ==> r.average == RoundedMean(ps)
  {
    FilterCount(ps, PassesDefault);
    if ps == [] then
      assert Filter(ps, PassesDefault) == [];
      Stats(0, 0, 0, Finite(0))
    else
      var passed := |Filter(ps, PassesDefault)|;
      Stats(|ps|, passed, |ps| - passed, RoundedMean(ps))
  }

  /** When everyone passes nobody has failed, and when nobody passes everyone has. */
  lemma StatsExtremes(ps: seq<Number>)
    ensures (forall i :: 0 <= i < |ps| ==> PassesDefault(ps[i])) ==> CalculateStats(ps).failed == 0
    ensures (forall i :: 0 <= i < |ps| ==> !PassesDefault(ps[i])) ==> CalculateStats(ps).passed == 0
  {
    if forall i :: 0 <= i < |ps| ==> PassesDefault(ps[i]) {
      FilterKeepsAll(ps, PassesDefault);
    }
    if forall i :: 0 <= i < |ps| ==> !PassesDefault(ps[i]) {
      FilterKeepsNone(ps, PassesDefault);
    }
  }

  /** Percentages within 0..100 give an average within 0..100; one missing value makes it NaN. */
  lemma StatsAverage(ps: seq<Number>)
    ensures Within(ps, 0, 100) ==> CalculateStats(ps).average.Finite?
    ensures Within(ps, 0, 100) ==> 0 <= CalculateStats(ps).average.value <= 100
    ensures (exists i :: 0 <= i < |ps| && ps[i].NaN?) ==> CalculateStats(ps).average.NaN?
  {
    if ps != [] && Within(ps, 0, 100) {
      MeanWithin(ps, 0, 100);
    }
  }
}
