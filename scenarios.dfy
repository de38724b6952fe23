/**
 * A client of the grade manager: session walk-throughs whose outcomes follow
 * from the operations' contracts alone.
 */
module Scenarios {
  import opened Grades
  import opened Roster
  import opened Manager

  /**
   * Alice (90, 80, 70, 100, 60) averages 80 and Bob (50 in every subject)
   * averages 50; the class average is 65, Alice is highest and Bob lowest;
   * adding id 1 again is refused and leaves two records.
   */
  method TwoStudents()
  {
    var m := new GradeManager();
    var alice := [90, 80, 70, 100, 60];
    var bob := [50, 50, 50, 50, 50];
    assert !HasId(m.students, 1);
    var ok := m.AddStudent(1, "Alice", alice);
    assert ok;
    assert m.students[0].id == 1;
    assert !HasId(m.students, 2);
    ok := m.AddStudent(2, "Bob", bob);
    assert ok;
    assert m.students[0].id == 1;
    ok := m.AddStudent(1, "Alice again", []);
    assert !ok;
    assert m.GetStudentCount() == 2;

    assert Sum(alice) == 400 by {
      assert [90][..0] == [];
      assert [90, 80][..1] == [90];
      assert [90, 80, 70][..2] == [90, 80];
      assert [90, 80, 70, 100][..3] == [90, 80, 70];
      assert alice[..4] == [90, 80, 70, 100];
    }
    assert CalculateAverage(alice) == 80.0;
    AverageOfEqualGrades(bob, 50);
    var s := m.students;
    assert s[0].average == 80.0 && s[1].average == 50.0;

    var stats := m.CalculateClassStats();
    assert |s| == 2 && s[..1] == [s[0]] && s[..1][..0] == [];
    assert SumOfAverages(s[..1]) == 80.0;
    assert s[..|s| - 1] == s[..1];
    assert SumOfAverages(s) == 130.0;
    assert MaxElement(s) == 0 && MinElement(s) == 1;
    assert stats == Stats(2, 65.0, s[0], s[1]);
    assert stats.highest.name == "Alice" && stats.lowest.name == "Bob";
  }

  /** Removing a record keeps the other in place; removing it twice finds nothing the second time. */
  method RemoveTwice()
  {
    var m := new GradeManager();
    var grades := [70, 70, 70, 70, 70];
    var ok := m.AddStudent(7, "Carol", grades);
    assert m.students[0].id == 7;
    ok := m.AddStudent(8, "Dan", grades);
    var dan := m.students[1];
    assert m.students[0].id == 7 && |m.students| == 2;
    ok := m.RemoveStudent(7);
    assert ok && m.students == [dan];
    ok := m.RemoveStudent(7);
    assert !ok && m.students == [dan];
  }
}
