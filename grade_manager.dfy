/**
 * The grade manager: the object that owns the roster for one run and the
 * operations the interactive menu calls. Values that the source reads from
 * the console are parameters here; which message the source prints is the
 * result of each operation.
 */
module Manager {
  import opened Grades
  import opened Roster

  /** What the class statistics report: nothing for an empty roster, otherwise the figures it prints. */
  datatype StatsResult =
    | NoStudents
    | Stats(count: nat, classAverage: real, highest: Student, lowest: Student)

  class GradeManager {
    var students: seq<Student>

    /** Ids are unique and every record's average agrees with its grades. */
    ghost predicate Valid()
      reads this
    {
      ValidRoster(students)
    }

    constructor ()
      ensures Valid() && students == []
    {
      students := [];
    }

    /** Linear scan for the first record with this id; -1 when there is none. */
    method FindStudentById(id: int) returns (index: int)
      ensures index == IndexOf(students, id)
    {
      var i := 0;
      while i < |students|
        invariant 0 <= i <= |students|
        invariant forall j :: 0 <= j < i ==> students[j].id != id
      {
        if students[i].id == id {
          return i;
        }
        i := i + 1;
      }
      return -1;
    }

    /**
     * Adds a record unless the id is taken. The grades are the values finally
     * accepted by the input loop, so they are only constrained when the source
     * goes on to read them.
     */
    method AddStudent(id: int, name: string, grades: seq<int>) returns (added: bool)
      requires Valid()
      requires !HasId(students, id) ==> ValidGrades(grades)
      modifies this
      ensures Valid()
      ensures added <==> !HasId(old(students), id)
      ensures !added ==> students == old(students)
      ensures added ==> students == old(students) + [Student(id, name, grades, CalculateAverage(grades))]
      ensures added ==> |students| == |old(students)| + 1 && students[|students| - 1].id == id
    {
      var index := FindStudentById(id);
      if index != -1 {
        return false;
      }
      var newStudent := NewStudent(id, name);
      for i := 0 to NumSubjects
        invariant newStudent.id == id && newStudent.name == name
        invariant |newStudent.grades| == NumSubjects
        invariant forall j :: 0 <= j < i ==> newStudent.grades[j] == grades[j]
      {
        newStudent := newStudent.(grades := newStudent.grades[i := grades[i]]);
      }
      assert newStudent.grades == grades;
      newStudent := newStudent.(average := CalculateAverage(newStudent.grades));
      AppendKeepsValid(students, newStudent);
      students := students + [newStudent];
      added := true;
    }

    /** Reorders the roster from highest to lowest average; an empty roster is left alone. */
    method SortStudents() returns (sorted: bool)
      requires Valid()
      modifies this
      ensures Valid()
      ensures sorted <==> |old(students)| > 0
      ensures !sorted ==> students == old(students)
      ensures multiset(students) == multiset(old(students)) && NonIncreasing(students)
    {
      if |students| == 0 {
        return false;
      }
      PermutationKeepsValid(students, SortByAverage(students));
      students := SortByAverage(students);
      sorted := true;
    }

    /**
     * The number of records, the mean of their averages and the first records
     * with the highest and the lowest average.
     */
    method CalculateClassStats() returns (stats: StatsResult)
      ensures stats.NoStudents? <==> |students| == 0
      ensures stats.Stats? ==>
        && stats.count == |students|
        && stats.classAverage == SumOfAverages(students) / (|students| as real)
        && stats.highest == students[MaxElement(students)]
        && stats.lowest == students[MinElement(students)]
        && (forall i :: 0 <= i < |students| ==>
              stats.lowest.average <= students[i].average <= stats.highest.average)
        && stats.lowest.average <= stats.classAverage <= stats.highest.average
    {
      if |students| == 0 {
        return NoStudents;
      }
      var totalAverage := 0.0;
      for i := 0 to |students|
        invariant totalAverage == SumOfAverages(students[..i])
      {
        assert students[..i + 1][..i] == students[..i];
        totalAverage := totalAverage + students[i].average;
      }
      assert students[..|students|] == students;
      var classAverage := totalAverage / (|students| as real);
      var maxElement := MaxElement(students);
      var minElement := MinElement(students);
      MeanOfAveragesBounds(students, students[minElement].average, students[maxElement].average);
      stats := Stats(|students|, classAverage, students[maxElement], students[minElement]);
    }

    /** Deletes the record with this id, keeping the others in order. */
    method RemoveStudent(id: int) returns (removed: bool)
      requires Valid()
      modifies this
      ensures Valid()
      ensures removed <==> HasId(old(students), id)
      ensures !removed ==> students == old(students)
      ensures removed ==>
        var k := IndexOf(old(students), id);
        && students == old(students)[..k] + old(students)[k + 1..]
        && |students| == |old(students)| - 1
      ensures !HasId(students, id)
    {
      var index := FindStudentById(id);
      if index == -1 {
        return false;
      }
      RemoveKeepsValid(students, index);
      students := students[..index] + students[index + 1..];
      removed := true;
    }

    /**
     * Replaces the grades of the record with this id and recomputes its
     * average. The grades are only constrained when the id is found, because
     * only then does the source read them.
     */
    method UpdateGrades(id: int, newGrades: seq<int>) returns (updated: bool)
      requires Valid()
      requires HasId(students, id) ==> ValidGrades(newGrades)
      modifies this
      ensures Valid()
      ensures updated <==> HasId(old(students), id)
      ensures !updated ==> students == old(students)
      ensures updated ==>
        var k := IndexOf(old(students), id);
        students == old(students)[k := old(students)[k].(grades := newGrades, average := CalculateAverage(newGrades))]
    {
      var index := FindStudentById(id);
      if index == -1 {
        return false;
      }
      ghost var before := students;
      for i := 0 to NumSubjects
        invariant |students| == |before|
        invariant forall j :: 0 <= j < |before| && j != index ==> students[j] == before[j]
        invariant students[index].id == before[index].id && students[index].name == before[index].name
        invariant students[index].average == before[index].average
        invariant |students[index].grades| == NumSubjects
        invariant forall j :: 0 <= j < i ==> students[index].grades[j] == newGrades[j]
      {
        students := students[index := students[index].(grades := students[index].grades[i := newGrades[i]])];
      }
      assert students[index].grades == newGrades;
      students := students[index := students[index].(average := CalculateAverage(students[index].grades))];
      assert students == before[index := before[index].(grades := newGrades, average := CalculateAverage(newGrades))];
      ReplaceKeepsValid(before, index, students[index]);
      updated := true;
    }

    /** The number of records; since ids are unique, also the number of distinct ids. */
    function GetStudentCount(): (n: nat)
      reads this
      ensures UniqueIds(students) ==> n == |IdSet(students)|
    {
      IdCount(students);
      |students|
    }
  }
}
