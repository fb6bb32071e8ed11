/**
 * Rosters from the project's unit and integration tests, worked through the
 * model. Some confirm what the tests expect; the ones about equal averages
 * show that the code keeps insertion order among ties, where the tests
 * expect names in ascending order.
 */
module Scenarios {
  import opened Wrappers
  import opened Models
  import opened Ranking
  import opened Services

  function Names(s: seq<Student>): (ns: seq<string>)
    ensures |ns| == |s|
    ensures forall i :: 0 <= i < |s| ==> ns[i] == s[i].name
  {
    if s == [] then [] else [s[0].name] + Names(s[1..])
  }

  function Equal(name: string, k: Int32): Student
  {
    Student(name, ScoreInfo(k, k, k))
  }

  /**
   * Three students with average 8 added as Tran Thi E, Tran Thi B, Le Van C
   * keep that order in the ranking; the name order the tests expect
   * (Le Van C first) is not what the code produces.
   */
  lemma TiesRankedInInsertionOrderNotByName(e: Student, b: Student, c: Student)
    requires e == Equal("Tran Thi E", 8) && b == Equal("Tran Thi B", 8) && c == Equal("Le Van C", 8)
    ensures Names(Rank([e, b, c])) == ["Tran Thi E", "Tran Thi B", "Le Van C"]
    ensures Names(Rank([e, b, c])) != ["Le Van C", "Tran Thi B", "Tran Thi E"]
  {
    AllTiedKeepInsertionOrder([e, b, c], 8.0);
    assert Names([e, b, c])[0] == "Tran Thi E";
  }

  /**
   * Six students with averages 8, 8, 8, 9, 10, 7 in that insertion order
   * (as in the integration workflow) rank as 10, 9, then the three 8s in
   * insertion order, then 7.
   */
  lemma MixedRosterRanking(a: Student, b: Student, c: Student, d: Student, e: Student, f: Student)
    requires Average(a) == Average(b) == Average(c) == 8.0
    requires Average(d) == 9.0 && Average(e) == 10.0 && Average(f) == 7.0
    ensures Rank([a, b, c, d, e, f]) == [e, d, a, b, c, f]
  {
    var s, r := [a, b, c, d, e, f], [e, d, a, b, c, f];
    assert NonIncreasing(r);
    forall k
      ensures Ties(r, k) == Ties(s, k)
    {
      MixedRosterTies(a, b, c, d, e, f, k);
    }
    RankIsUnique(s, r);
  }

  lemma MixedRosterTies(a: Student, b: Student, c: Student, d: Student, e: Student, f: Student, k: real)
    requires Average(a) == Average(b) == Average(c) == 8.0
    requires Average(d) == 9.0 && Average(e) == 10.0 && Average(f) == 7.0
    ensures Ties([e, d, a, b, c, f], k) == Ties([a, b, c, d, e, f], k)
  {
    var abc := [a, b, c];
    TiesOfTied(abc, 8.0, k);
    TiesOfTied([d], 9.0, k);
    TiesOfTied([e], 10.0, k);
    TiesOfTied([f], 7.0, k);
    assert [e, d, a, b, c, f] == [e] + ([d] + (abc + [f]));
    TiesAppend([e], [d] + (abc + [f]), k);
    TiesAppend([d], abc + [f], k);
    TiesAppend(abc, [f], k);
    assert [a, b, c, d, e, f] == abc + ([d] + ([e] + [f]));
    TiesAppend(abc, [d] + ([e] + [f]), k);
    TiesAppend([d], [e] + [f], k);
    TiesAppend([e], [f], k);
  }

  /**
   * The integration workflow: three students added, the one with the
   * strictly highest average is the top one, and sorting and asking for the
   * top leave the roster exactly as it was added.
   */
  method TopAndRosterAfterQueries(b: Student, c: Student, d: Student) returns (top: Option<Student>, all: seq<Student>)
    requires Average(b) < Average(d) && Average(c) < Average(d)
    ensures top == Some(d)
    ensures all == [b, c, d]
  {
    var service := new StudentService();
    service.AddStudent(b);
    service.AddStudent(c);
    service.AddStudent(d);
    assert service.students == [b, c, d];
    TopOfThree(b, c, d);
    var sorted := service.GetStudentsSortedByAverage();
    top := service.GetStudentWithHighestAverage();
    all := service.GetAllStudents();
  }

  lemma TopOfThree(b: Student, c: Student, d: Student)
    requires Average(b) < Average(d) && Average(c) < Average(d)
    ensures Top([b, c, d]) == Some(d)
  {
    var s := [b, c, d];
    assert forall j :: 0 <= j < 2 ==> Average(s[j]) < Average(s[2]);
    TopIsFirstAddedMaximum(s, 2);
  }

  /** An empty service lists nothing and has no top student. */
  method EmptyService() returns (top: Option<Student>, all: seq<Student>)
    ensures top == None && all == []
  {
    var service := new StudentService();
    all := service.GetAllStudents();
    top := service.GetStudentWithHighestAverage();
  }
}
