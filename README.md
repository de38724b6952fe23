# Student grade management: a verified model of the grade manager

The program manages an in-memory roster of student records for one console
session. Each record has an integer id, a name, one grade per subject
(`NUM_SUBJECTS` = 5, each grade in 0..100) and an average derived from the
grades. The `GradeManager` class owns the roster, a `vector<Student>`. It can
add a record (refused when the id is already present), look a record up by
id, sort the roster by average from highest to lowest, report class
statistics, remove a record by id, and replace a record's grades.

This project models that class in Dafny and proves what its operations
promise:

- ids stay unique;
- every stored average agrees with its grades;
- add appends, and leaves the roster unchanged for a duplicate id;
- remove deletes exactly the matching record and keeps the others in order;
- update changes only the matched record's grades and average;
- sort yields a non-increasing permutation;
- the class statistics report the first highest and the first lowest record;
  they bound every record, and the class average lies between them.

Files:

- `student.dfy` (module `Grades`): the `Student` record, its two
  constructors, the grade sum and average, and lemmas about their range.
- `roster.dfy` (module `Roster`): the roster as a sequence of records. It
  defines lookup by id, the roster invariant (unique ids, well-formed
  records), ordering by average, the first maximum and minimum, and the total
  of averages. It also proves that each kind of change the manager makes
  keeps the invariant.
- `grade_manager.dfy` (module `Manager`): the class `GradeManager`, a `seq`
  field standing for the vector. Its methods change that field in place as
  the source does. The scan in `FindStudentById`, the grade-writing loops in
  `AddStudent` and `UpdateGrades`, and the total-of-averages loop in
  `CalculateClassStats` are loops with invariants. Each method's `ensures`
  names the new roster in terms of the old one and the `Roster` functions.
- `scenarios.dfy` (module `Scenarios`): two client sessions. They show what
  a caller can conclude from the contracts alone. For example, Alice (90, 80,
  70, 100, 60) averages 80 and Bob (all 50) averages 50; the class average
  is then 65, with Alice highest and Bob lowest. A second add of id 1 is
  refused.

Values the source reads from the console are method parameters. Each
operation returns which outcome the source reports: a flag for add, sort,
remove and update, and a `StatsResult` for the statistics. The source re-asks
for a grade until it lies in 0..100. The model turns that loop into a
precondition on the grades that are finally accepted. The precondition holds
only when the source goes on to read grades: a new id for add, a found id for
update.

The code defines no error kinds: it prints a message and returns, or asks
again for a grade. So add, remove, update and sort return a flag, statistics
on an empty roster return `NoStudents`, and an out-of-range grade cannot
reach the manager.

Averages are exact rationals (`real`): the sum of the grades divided by their
count, and 0 for an empty list. The source uses `double`; its rounding is
not modelled.

## Model

| member | source | states |
|---|---|---|
| `Grades.NewStudent` | studentgradesystem.cpp:17-18 | the record built from an id and a name keeps both; it has `NumSubjects` grades, all 0; its average of 0 agrees with those grades, so it is well-formed from the start |
| `Grades.DefaultStudent` | studentgradesystem.cpp:19 | the no-argument constructor gives the same record as the two-argument one with id 0 and the empty name, and is well-formed |
| `Grades.CalculateAverage` | studentgradesystem.cpp:33-35 | 0 for no grades, otherwise the accumulated integer sum divided by the count as an exact real. The body is that definition; its `ensures` states the mean as the value that, taken once per grade, gives the sum. What is proved about it is in `AverageInRange`, `AverageOfEqualGrades` and the `WellFormed` invariant that `NewStudent` and the manager's methods keep |
| `Grades.SumFromRight` | studentgradesystem.cpp:35 | `Sum` folds from the left, as `accumulate` does; it agrees with the fold from the right (first grade plus the sum of the rest) |
| `Grades.SumBounds` | studentgradesystem.cpp:35 | the accumulated sum of n in-range grades lies between 0·n and 100·n |
| `Grades.SumOfEqualGrades` | studentgradesystem.cpp:35 | the accumulated sum of n copies of c is n·c |
| `Grades.AverageInRange` | studentgradesystem.cpp:33-35 | the average of in-range grades (also of no grades) lies in 0..100 |
| `Grades.AverageOfEqualGrades` | studentgradesystem.cpp:33-35 | the average of a non-empty list of equal grades c is c |
| `Roster.IndexOf` | studentgradesystem.cpp:26-31 | the result is -1 exactly when no record has the id; otherwise it is the first position whose record has that id |
| `Roster.IdCount` | studentgradesystem.cpp:197 | distinct ids never outnumber records, and the ids are unique if and only if the record count equals the number of distinct ids |
| `Roster.PermutationKeepsIds` | studentgradesystem.cpp:118-121 | a reordering of the roster has the same length and the same set of ids |
| `Roster.PermutationKeepsValid` | studentgradesystem.cpp:118-121 | a reordering of a valid roster (unique ids, every average consistent with in-range grades) is valid |
| `Roster.AppendKeepsValid` | studentgradesystem.cpp:45-68 | appending a well-formed record whose id is absent keeps the roster valid |
| `Roster.RemoveKeepsValid` | studentgradesystem.cpp:166 | erasing position k keeps the roster valid, shortens it by one, keeps the records before k and after k in order, and leaves no record with the erased id |
| `Roster.ReplaceKeepsValid` | studentgradesystem.cpp:182-193 | replacing a record by a well-formed one with the same id keeps the roster valid |
| `Roster.NonIncreasingOrdered` | studentgradesystem.cpp:118-121 | non-increasing adjacent averages imply that every earlier record's average is at least every later one's |
| `Roster.Insert` | studentgradesystem.cpp:118-121 | inserting into a roster ordered by average adds exactly that record and keeps the order |
| `Roster.SortByAverage` | studentgradesystem.cpp:118-121 | the result is a permutation of the roster with non-increasing adjacent averages |
| `Roster.MaxElement` | studentgradesystem.cpp:137-140 | the position's average is at least every record's average, and every earlier record's is strictly less, so it is the first maximum |
| `Roster.MinElement` | studentgradesystem.cpp:142-145 | the position's average is at most every record's average, and every earlier record's is strictly greater, so it is the first minimum |
| `Roster.SumOfAveragesBounds` | studentgradesystem.cpp:131-134 | the total of n averages in [lo, hi] lies in [n·lo, n·hi] |
| `Roster.MeanOfAveragesBounds` | studentgradesystem.cpp:131-135 | the mean of averages in [lo, hi] lies in [lo, hi] |
| `Manager.GradeManager.constructor` | studentgradesystem.cpp:22-24 | a new manager holds an empty, valid roster |
| `Manager.GradeManager.FindStudentById` | studentgradesystem.cpp:26-31 | the scan returns `IndexOf`: the first matching position, or -1 exactly when the id is absent |
| `Manager.GradeManager.AddStudent` | studentgradesystem.cpp:39-70 | a present id leaves the roster unchanged and reports failure; otherwise the record with the given id, name, grades and their average is appended, the count grows by one, earlier records are untouched, and the roster stays valid |
| `Manager.GradeManager.SortStudents` | studentgradesystem.cpp:112-123 | an empty roster is left unchanged; otherwise the roster becomes a permutation of itself with non-increasing averages, and it stays valid |
| `Manager.GradeManager.CalculateClassStats` | studentgradesystem.cpp:125-152 | an empty roster gives `NoStudents`. Otherwise the result holds the count, the mean of all averages, the first record with the highest average and the first with the lowest; every record's average and the mean lie between these two |
| `Manager.GradeManager.RemoveStudent` | studentgradesystem.cpp:154-168 | an absent id leaves the roster unchanged. Otherwise exactly the first matching record is erased, the others keep their order and the count drops by one. Afterwards no record has the id and the roster stays valid |
| `Manager.GradeManager.UpdateGrades` | studentgradesystem.cpp:170-195 | an absent id leaves the roster unchanged. Otherwise only the matched record changes: it gets the new grades and their average, and keeps its id and name. The roster stays valid |
| `Manager.GradeManager.GetStudentCount` | studentgradesystem.cpp:197 | with unique ids, the count is the number of distinct ids on the roster |

## Left out

- Console I/O (prompts, `cin`, `getline`, `cin.ignore`, the `setw`/`setprecision` tables and messages): display only. Inputs are parameters; messages are the returned outcome.
- `displayAllStudents` (studentgradesystem.cpp:72-89) and `searchStudent` (studentgradesystem.cpp:91-110): they only print. Search is `FindStudentById` followed by printing.
- The grade re-prompt loops (studentgradesystem.cpp:60-63, 186-189): they become a precondition on the accepted grades, since the source never stores an out-of-range grade.
- The menu, the input check on the menu choice and `main` (studentgradesystem.cpp:200-242): they only dispatch to the operations.
- IEEE `double` rounding of `average` and of the running `totalAverage`: averages and their total are exact `real`s.
- Manager.GradeManager.SortStudents: the algorithm of `std::sort` and its order among equal averages are not modelled. The contract states only sortedness and permutation. The tie order of `SortByAverage`, which stands in for the library call, is not promised.
- Integer widths: ids are only compared, never computed with, so the 32-bit `int` range is not modelled, nor is the `size_t` to `int` cast of an index beyond 2^31 records.
