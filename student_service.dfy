/**
 * StudentService: an in-memory roster that owns a list of students in the
 * order they were added. Adding is the only operation that changes it; the
 * three queries read the list and build their answers without touching it
 * (none of them has a `modifies` clause).
 */
module Services {
  import opened Wrappers
  import opened Models
  import opened Ranking

  class StudentService {
    /** The `_students` list, in insertion order. */
    var students: seq<Student>

    /** A new service starts with an empty roster. */
    constructor ()
      ensures students == []
    {
      students := [];
    }

    /** AddStudent: appends the student at the end; nothing is checked or rejected. */
    method AddStudent(student: Student)
      modifies this
      ensures students == old(students) + [student]
      ensures |students| == |old(students)| + 1 && students[|students| - 1] == student
    {
      students := students + [student];
    }

    /** GetAllStudents: the roster in insertion order, duplicates kept as separate entries. */
    method GetAllStudents() returns (all: seq<Student>)
      ensures all == students
    {
      all := students;
    }

    /**
     * GetStudentsSortedByAverage: every stored student once per entry, by
     * non-increasing average, students with equal averages in the order
     * they were added.
     */
    method GetStudentsSortedByAverage() returns (sorted: seq<Student>)
      ensures sorted == Rank(students)
      ensures |sorted| == |students| && multiset(sorted) == multiset(students)
      ensures forall i :: 0 <= i < |sorted| - 1 ==> Average(sorted[i]) >= Average(sorted[i + 1])
      ensures forall k :: Ties(sorted, k) == Ties(students, k)
    {
      sorted := Rank(students);
      RankNonIncreasing(students);
      forall k
        ensures Ties(sorted, k) == Ties(students, k)
      {
        RankStable(students, k);
      }
    }

    /**
     * GetStudentWithHighestAverage: absent exactly when the roster is empty,
     * otherwise the first student of the ranking, which is a stored student
     * whose average is at least every other stored student's.
     */
    method GetStudentWithHighestAverage() returns (top: Option<Student>)
      ensures top == Top(students)
      ensures top.None? <==> students == []
      ensures top.Some? ==> top.value in students
      ensures top.Some? ==> forall x :: x in students ==> Average(x) <= Average(top.value)
    {
      top := Top(students);
      TopIsMaximum(students);
    }
  }
}
