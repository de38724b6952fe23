/**
 * The student record of the grade management system: an id, a name, one
 * grade per subject and the average derived from those grades.
 */
module Grades {

  /** Number of grade slots every record holds. */
  const NumSubjects: nat := 5

  /** Inclusive bounds a grade must lie in. */
  const MinGrade: int := 0
  const MaxGrade: int := 100

  /** One student. `average` is derived from `grades` and is kept in step with it. */
  datatype Student = Student(id: int, name: string, grades: seq<int>, average: real)

  /** Sum of a grade list, folded from the left starting at 0 as `std::accumulate` does. */
  function Sum(s: seq<int>): int
  {
    if |s| == 0 then 0 else Sum(s[..|s| - 1]) + s[|s| - 1]
  }

  /** The left fold agrees with the fold from the right: the first grade plus the sum of the rest. */
  lemma {:induction false} SumFromRight(s: seq<int>)
    requires |s| > 0
    ensures Sum(s) == s[0] + Sum(s[1..])
  {
    if |s| > 1 {
      var p := s[..|s| - 1];
      SumFromRight(p);
      assert p[1..] == s[1..][..|s[1..]| - 1];
    }
  }

  /**
   * Arithmetic mean of a grade list; 0 for an empty list. The mean is the value
   * that, taken once per grade, adds up to the grades' sum.
   */
  function CalculateAverage(grades: seq<int>): (r: real)
    ensures |grades| == 0 ==> r == 0.0
    ensures |grades| > 0 ==> r * (|grades| as real) == Sum(grades) as real
  {
    if |grades| == 0 then 0.0 else Sum(grades) as real / |grades| as real
  }

  /** Every grade lies in [MinGrade, MaxGrade]. */
  predicate InRange(grades: seq<int>)
  {
    forall i :: 0 <= i < |grades| ==> MinGrade <= grades[i] <= MaxGrade
  }

  /** A grade list as the interactive input accepts it: one grade per subject, each in range. */
  predicate ValidGrades(grades: seq<int>)
  {
    |grades| == NumSubjects && InRange(grades)
  }

  /** A stored record: valid grades and an average that agrees with them. */
  predicate WellFormed(s: Student)
  {
    ValidGrades(s.grades) && s.average == CalculateAverage(s.grades)
  }

  /** The record built from an id and a name: every grade 0 and an average of 0. */
  function NewStudent(id: int, name: string): (s: Student)
    ensures s.id == id && s.name == name
    ensures |s.grades| == NumSubjects
    ensures forall i :: 0 <= i < NumSubjects ==> s.grades[i] == 0
    ensures WellFormed(s)
  {
    var zeros := seq(NumSubjects, _ => 0);
    AverageOfEqualGrades(zeros, 0);
    Student(id, name, zeros, 0.0)
  }

  /** The record built with no arguments: the one for id 0 and the empty name. */
  function DefaultStudent(): (s: Student)
    ensures s == NewStudent(0, "")
    ensures WellFormed(s)
  {
    Student(0, "", seq(NumSubjects, _ => 0), 0.0)
  }

  /** The sum of grades that all lie in range lies between the smallest and largest possible totals. */
  lemma {:induction false} SumBounds(s: seq<int>)
    requires InRange(s)
    ensures MinGrade * |s| <= Sum(s) <= MaxGrade * |s|
  {
    if |s| > 0 {
      SumBounds(s[..|s| - 1]);
    }
  }

  /** The sum of n copies of c is n * c. */
  lemma {:induction false} SumOfEqualGrades(s: seq<int>, c: int)
    requires forall i :: 0 <= i < |s| ==> s[i] == c
    ensures Sum(s) == |s| * c
  {
    if |s| > 0 {
      SumOfEqualGrades(s[..|s| - 1], c);
    }
  }

  /** A mean that is bracketed by its bounds, in terms of total and count. */
  lemma DivisionBetween(total: real, n: real, lo: real, hi: real)
    requires n > 0.0
    requires n * lo <= total <= n * hi
    ensures lo <= total / n <= hi
  {
    assert (total / n) * n == total;
  }

  /** The average of grades that all lie in range lies in range too. */
  lemma AverageInRange(grades: seq<int>)
    requires InRange(grades)
    ensures MinGrade as real <= CalculateAverage(grades) <= MaxGrade as real
  {
    if |grades| > 0 {
      SumBounds(grades);
      var n := |grades| as real;
      assert n * (MinGrade as real) <= Sum(grades) as real <= n * (MaxGrade as real);
      DivisionBetween(Sum(grades) as real, n, MinGrade as real, MaxGrade as real);
    }
  }

  /** If every grade equals c, the average is c. */
  lemma AverageOfEqualGrades(grades: seq<int>, c: int)
    requires |grades| > 0
    requires forall i :: 0 <= i < |grades| ==> grades[i] == c
    ensures CalculateAverage(grades) == c as real
  {
    SumOfEqualGrades(grades, c);
    var n := |grades| as real;
    assert Sum(grades) as real == n * (c as real);
  }
}
