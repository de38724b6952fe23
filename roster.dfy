/**
 * The roster as a value: an ordered sequence of student records. This module
 * states what the grade manager's operations look for and compute over the
 * sequence (lookup by id, the invariant of unique ids and consistent
 * averages, ordering by average, the first highest and lowest average, the
 * total of the averages), and proves the facts the manager relies on.
 */
module Roster {
  import opened Grades

  /** Some record carries this id. */
  predicate HasId(s: seq<Student>, id: int)
  {
    exists i :: 0 <= i < |s| && s[i].id == id
  }

  /** Position of the first record with this id, or -1 when there is none. */
  function IndexOf(s: seq<Student>, id: int): (r: int)
    ensures -1 <= r < |s|
    ensures r == -1 <==> !HasId(s, id)
    ensures 0 <= r ==> s[r].id == id && forall j :: 0 <= j < r ==> s[j].id != id
  {
    if |s| == 0 then -1
    else if s[0].id == id then 0
    else
      var k := IndexOf(s[1..], id);
      assert forall j :: 0 < j < |s| ==> s[j] == s[1..][j - 1];
      if k == -1 then -1 else k + 1
  }

  /** No two records share an id. */
  predicate UniqueIds(s: seq<Student>)
  {
    forall i, j :: 0 <= i < j < |s| ==> s[i].id != s[j].id
  }

  /** The ids present in the roster. */
  function IdSet(s: seq<Student>): set<int>
  {
    set i | 0 <= i < |s| :: s[i].id
  }

  /** The object invariant of the grade manager's roster. */
  predicate ValidRoster(s: seq<Student>)
  {
    UniqueIds(s) && forall i :: 0 <= i < |s| ==> WellFormed(s[i])
  }

  /** Dropping the last record removes at most its id from the id set. */
  lemma IdSetLast(s: seq<Student>)
    requires |s| > 0
    ensures IdSet(s) == IdSet(s[..|s| - 1]) + {s[|s| - 1].id}
  {
  }

  /** Unique ids in a roster stay unique in every prefix, and the last id is not among the others. */
  lemma UniqueIdsLast(s: seq<Student>)
    requires |s| > 0 && UniqueIds(s)
    ensures UniqueIds(s[..|s| - 1]) && s[|s| - 1].id !in IdSet(s[..|s| - 1])
  {
  }

  /** A roster whose ids are not unique either has a duplicate before its last record or repeats an earlier id last. */
  lemma DuplicateIdsLast(s: seq<Student>)
    requires |s| > 0 && !UniqueIds(s)
    ensures !UniqueIds(s[..|s| - 1]) || s[|s| - 1].id in IdSet(s[..|s| - 1])
  {
  }

  /**
   * There are never more distinct ids than records, and there are exactly as
   * many precisely when the ids are unique.
   */
  lemma {:induction false} IdCount(s: seq<Student>)
    ensures |IdSet(s)| <= |s|
    ensures UniqueIds(s) <==> |IdSet(s)| == |s|
  {
    if |s| == 0 {
      assert IdSet(s) == {};
    } else {
      var p, x := s[..|s| - 1], s[|s| - 1];
      IdCount(p);
      IdSetLast(s);
      if UniqueIds(s) {
        UniqueIdsLast(s);
      } else {
        DuplicateIdsLast(s);
        if x.id in IdSet(p) {
          assert IdSet(s) == IdSet(p);
        }
      }
    }
  }

  /** Reordering the records keeps the set of ids and their number. */
  lemma PermutationKeepsIds(s: seq<Student>, r: seq<Student>)
    requires multiset(r) == multiset(s)
    ensures |r| == |s| && IdSet(r) == IdSet(s)
  {
    assert |multiset(r)| == |multiset(s)|;
    forall id | id in IdSet(r) ensures id in IdSet(s) {
      var i :| 0 <= i < |r| && r[i].id == id;
      assert r[i] in multiset(s);
      var k :| 0 <= k < |s| && s[k] == r[i];
    }
    forall id | id in IdSet(s) ensures id in IdSet(r) {
      var i :| 0 <= i < |s| && s[i].id == id;
      assert s[i] in multiset(r);
      var k :| 0 <= k < |r| && r[k] == s[i];
    }
  }

  /** A reordering of a valid roster is a valid roster. */
  lemma PermutationKeepsValid(s: seq<Student>, r: seq<Student>)
    requires ValidRoster(s)
    requires multiset(r) == multiset(s)
    ensures ValidRoster(r)
  {
    PermutationKeepsIds(s, r);
    IdCount(s);
    IdCount(r);
    forall i | 0 <= i < |r| ensures WellFormed(r[i]) {
      assert r[i] in multiset(s);
      var k :| 0 <= k < |s| && s[k] == r[i];
    }
  }

  /** Appending a well-formed record with a fresh id keeps the roster valid. */
  lemma AppendKeepsValid(s: seq<Student>, x: Student)
    requires ValidRoster(s)
    requires WellFormed(x) && !HasId(s, x.id)
    ensures ValidRoster(s + [x])
  {
  }

  /**
   * Deleting the record at k keeps the roster valid, keeps every other record
   * in its relative order, and leaves no record with the deleted id.
   */
  lemma RemoveKeepsValid(s: seq<Student>, k: int)
    requires ValidRoster(s)
    requires 0 <= k < |s|
    ensures var r := s[..k] + s[k + 1..];
      && ValidRoster(r)
      && |r| == |s| - 1
      && (forall i :: 0 <= i < k ==> r[i] == s[i])
      && (forall i :: k <= i < |r| ==> r[i] == s[i + 1])
      && !HasId(r, s[k].id)
  {
  }

  /** Replacing a record by a well-formed one with the same id keeps the roster valid. */
  lemma ReplaceKeepsValid(s: seq<Student>, k: int, x: Student)
    requires ValidRoster(s)
    requires 0 <= k < |s|
    requires x.id == s[k].id && WellFormed(x)
    ensures ValidRoster(s[k := x])
  {
  }

  /** Adjacent records have non-increasing averages. */
  predicate NonIncreasing(s: seq<Student>)
  {
    forall i :: 0 < i < |s| ==> s[i - 1].average >= s[i].average
  }

  /** Adjacent order implies that every earlier record has at least the average of every later one. */
  lemma {:induction false} NonIncreasingOrdered(s: seq<Student>)
    requires NonIncreasing(s)
    ensures forall i, j :: 0 <= i <= j < |s| ==> s[i].average >= s[j].average
  {
    if |s| > 1 {
      var t := s[1..];
      assert NonIncreasing(t) by {
        forall i | 0 < i < |t| ensures t[i - 1].average >= t[i].average {
          assert t[i - 1] == s[i] && t[i] == s[i + 1];
        }
      }
      NonIncreasingOrdered(t);
      forall i, j | 0 <= i <= j < |s| ensures s[i].average >= s[j].average {
        if 0 < i {
          assert s[i] == t[i - 1] && s[j] == t[j - 1];
        } else if 0 < j {
          assert s[1] == t[0] && s[j] == t[j - 1];
        }
      }
    }
  }

  /** Inserts x into a roster ordered by average, before the first record whose average is at most x's. */
  function Insert(x: Student, t: seq<Student>): (r: seq<Student>)
    ensures |r| == |t| + 1
    ensures multiset(r) == multiset(t) + multiset{x}
    ensures r[0] == x || (|t| > 0 && r[0] == t[0])
    ensures NonIncreasing(t) ==> NonIncreasing(r)
  {
    if |t| == 0 then [x]
    else if x.average >= t[0].average then [x] + t
    else
      var rest := Insert(x, t[1..]);
      assert t == [t[0]] + t[1..];
      assert NonIncreasing(t) ==> NonIncreasing(t[1..]) by {
        if NonIncreasing(t) {
          forall i | 0 < i < |t[1..]| ensures t[1..][i - 1].average >= t[1..][i].average {
            assert t[1..][i - 1] == t[i] && t[1..][i] == t[i + 1];
          }
        }
      }
      [t[0]] + rest
  }

  /**
   * The roster reordered from highest to lowest average. It stands for the
   * library sort the grade manager calls; among equal averages it fixes one
   * order, which nothing here relies on.
   */
  function SortByAverage(s: seq<Student>): (r: seq<Student>)
    ensures multiset(r) == multiset(s)
    ensures NonIncreasing(r)
  {
    if |s| == 0 then []
    else
      assert s == [s[0]] + s[1..];
      Insert(s[0], SortByAverage(s[1..]))
  }

  /**
   * Position of the first record with the greatest average, scanning left to
   * right and moving on only to a strictly greater average, as
   * `std::max_element` does with a less-than comparison.
   */
  function MaxElement(s: seq<Student>): (k: nat)
    requires |s| > 0
    ensures k < |s|
    ensures forall j :: 0 <= j < |s| ==> s[j].average <= s[k].average
    ensures forall j :: 0 <= j < k ==> s[j].average < s[k].average
  {
    if |s| == 1 then 0
    else
      var p := s[..|s| - 1];
      var k := MaxElement(p);
      assert forall j :: 0 <= j < |p| ==> s[j] == p[j];
      if s[k].average < s[|s| - 1].average then |s| - 1 else k
  }

  /** Position of the first record with the least average, as `std::min_element` does. */
  function MinElement(s: seq<Student>): (k: nat)
    requires |s| > 0
    ensures k < |s|
    ensures forall j :: 0 <= j < |s| ==> s[k].average <= s[j].average
    ensures forall j :: 0 <= j < k ==> s[k].average < s[j].average
  {
    if |s| == 1 then 0
    else
      var p := s[..|s| - 1];
      var k := MinElement(p);
      assert forall j :: 0 <= j < |p| ==> s[j] == p[j];
      if s[|s| - 1].average < s[k].average then |s| - 1 else k
  }

  /** Total of all records' averages, accumulated from the left. */
  function SumOfAverages(s: seq<Student>): real
  {
    if |s| == 0 then 0.0 else SumOfAverages(s[..|s| - 1]) + s[|s| - 1].average
  }

  lemma {:induction false} SumOfAveragesBounds(s: seq<Student>, lo: real, hi: real)
    requires forall i :: 0 <= i < |s| ==> lo <= s[i].average <= hi
    ensures (|s| as real) * lo <= SumOfAverages(s) <= (|s| as real) * hi
  {
    if |s| > 0 {
      var p := s[..|s| - 1];
      assert forall i :: 0 <= i < |p| ==> p[i] == s[i];
      SumOfAveragesBounds(p, lo, hi);
      assert (|s| as real) * lo == (|p| as real) * lo + lo;
      assert (|s| as real) * hi == (|p| as real) * hi + hi;
    }
  }

  /** The mean of averages that all lie in [lo, hi] lies in [lo, hi]. */
  lemma MeanOfAveragesBounds(s: seq<Student>, lo: real, hi: real)
    requires |s| > 0
    requires forall i :: 0 <= i < |s| ==> lo <= s[i].average <= hi
    ensures lo <= SumOfAverages(s) / (|s| as real) <= hi
  {
    SumOfAveragesBounds(s, lo, hi);
    DivisionBetween(SumOfAverages(s), |s| as real, lo, hi);
  }
}
