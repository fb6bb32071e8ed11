# Student score manager: a verified model of the roster service

This project models the in-memory roster of `Student_Score_Manager`: the
`Student` and `ScoreInfo` record types and the `StudentService` class that
keeps students in the order they were added and answers three queries over
them: the full list, the ranking by average (highest first), and the student
with the highest average.

- `wrappers.dfy`: `Option`, which stands for a C# reference that may be `null`.
- `models.dfy` (module `Models`, from `Models/Student.cs`): the records as
  datatypes, their constructors, the 32-bit grade sum and the average.
- `ranking.dfy` (module `Ranking`): the ordering behind
  `OrderByDescending(s => s.GetAverageScore())`. LINQ's ordering is a stable
  sort keyed only on the average. It is modelled as an insertion sort, `Rank`,
  with `Top` as its first element. Lemmas prove that the ranking is a
  permutation of the roster, is non-increasing, and keeps insertion order
  among students with equal averages (`Ties`). A further lemma proves that
  these properties fix the result uniquely, so every stable descending sort
  gives the same order.
- `student_service.dfy` (module `Services`, from `Services/StudentService.cs`):
  class `StudentService` with the `students` sequence field. `AddStudent` is the
  only method with a `modifies` clause. The three queries have none, so Dafny's
  frame rules guarantee that they leave the roster unchanged.
- `scenarios.dfy` (module `Scenarios`): rosters taken from the project's tests,
  worked through the model, and two client methods that drive the class.

The sort key is the exact rational average, `(Math + Physics + Chemistry) / 3`
as a Dafny `real`. The C# code computes it in `double`. A 32-bit integer
divided by 3.0 is strictly increasing in that integer when computed in double
precision. Adjacent integers give quotients 1/3 apart, which is far more than
the rounding error below 2^31. So the double averages order and tie students
exactly as the exact ones do, and `Models.AverageOrderIsGradeSumOrder` shows
that both agree with ordering by integer grade sum.

## Model

| member | source | states |
|---|---|---|
| `Models.NewScoreInfo` | Student_Score_Manager/Models/Student.cs:31-36 | the three grades are stored exactly as given |
| `Models.NewStudent` | Student_Score_Manager/Models/Student.cs:8-12 | the name and the grade record are stored unchanged |
| `Models.Wrap32` | Student_Score_Manager/Models/Student.cs:16 | C# unchecked `int` addition: the result is congruent to the true value modulo 2^32 and equal to it when it fits in 32 bits |
| `Models.AverageAsWritten` | Student_Score_Manager/Models/Student.cs:16 | GetAverageScore as the code computes it: three times the result is the grade sum wrapped to 32 bits (`Math + Physics`, then `+ Chemistry`, each wrapping), a true quotient rather than an integer division |
| `Models.Average` | Student_Score_Manager/Models/Student.cs:16 | the corrected average named in Findings, which the ranking uses: three times it is the exact grade sum, a true quotient rather than an integer division |
| `Models.AverageWithinGrades` | Student_Score_Manager/Models/Student.cs:16 | the average lies between the smallest and the largest grade |
| `Models.AverageAsWrittenIsExactWithoutOverflow` | Student_Score_Manager/Models/Student.cs:16 | whenever the exact grade sum fits in 32 bits, the wrapping computation gives the exact mean, even if `Math + Physics` alone overflowed |
| `Models.GradeScaleAveragesAgree` | Student_Score_Manager/Models/Student.cs:16 | for grades 0..10 the computed average is the exact mean and lies in 0..10 |
| `Models.AverageAsWrittenOverflows` | Student_Score_Manager/Models/Student.cs:16 | grades (int.MaxValue, 1, 0) are all non-negative, yet the computed average is negative while the true mean is positive |
| `Models.AverageOrderIsGradeSumOrder` | Student_Score_Manager/Models/Student.cs:16 | comparing two averages (less-or-equal, equal) gives the same answer as comparing the integer grade sums |
| `Models.AverageExamples` | Student_Score_Manager/Models/Student.cs:16 | (9,8,7) averages 8, (10,5,0) averages 5, (8,8,9) averages 25/3 and not 8 |
| `Models.EqualGradesAverage` | Student_Score_Manager/Models/Student.cs:16 | three equal grades k average to k, and the computed average is k for k in 0..10, bounds included |
| `Ranking.Insert` | Student_Score_Manager/Services/StudentService.cs:24 | one insertion step adds exactly the one student: length grows by one, multiset gains it |
| `Ranking.Rank` | Student_Score_Manager/Services/StudentService.cs:24 | the ranking has the roster's length and is a permutation of it (same students, duplicates kept) |
| `Ranking.RankNonIncreasing` | Student_Score_Manager/Services/StudentService.cs:24 | averages never increase along the ranking, both for every adjacent pair and for every pair |
| `Ranking.RankStable` | Student_Score_Manager/Services/StudentService.cs:24 | for every average k, the students with average k appear in the ranking exactly in their insertion order |
| `Ranking.RankIsUnique` | Student_Score_Manager/Services/StudentService.cs:24 | any sequence that is non-increasing and keeps insertion order among each average's students is the ranking |
| `Ranking.AllTiedKeepInsertionOrder` | Student_Score_Manager/Services/StudentService.cs:24 | when all students share one average, the ranking is the insertion order |
| `Ranking.TopIsMaximum` | Student_Score_Manager/Services/StudentService.cs:30 | the top student is absent exactly on an empty roster; otherwise it is a stored student whose average is at least every stored student's |
| `Ranking.TopIsFirstAddedMaximum` | Student_Score_Manager/Services/StudentService.cs:30 | among students sharing the highest average, the top one is the first added |
| `Services.StudentService.constructor` | Student_Score_Manager/Services/StudentService.cs:9 | a new service holds no students |
| `Services.StudentService.AddStudent` | Student_Score_Manager/Services/StudentService.cs:11-14 | the roster becomes the old roster with the student appended, so it grows by exactly one |
| `Services.StudentService.GetAllStudents` | Student_Score_Manager/Services/StudentService.cs:16-19 | returns the roster in insertion order, duplicates as separate entries, without changing it |
| `Services.StudentService.GetStudentsSortedByAverage` | Student_Score_Manager/Services/StudentService.cs:21-25 | returns the ranking: a permutation of the roster, non-increasing by average, insertion order kept among equal averages; the roster is unchanged |
| `Services.StudentService.GetStudentWithHighestAverage` | Student_Score_Manager/Services/StudentService.cs:27-31 | returns the first of the ranking, absent exactly when the roster is empty, otherwise a stored student with the highest average; the roster is unchanged |
| `Scenarios.TiesRankedInInsertionOrderNotByName` | Student_Score_Manager/Services/StudentService.cs:24 | Tran Thi E, Tran Thi B, Le Van C, all averaging 8, rank in that insertion order and not by name |
| `Scenarios.MixedRosterRanking` | Student_Score_Manager/Services/StudentService.cs:24 | averages 8, 8, 8, 9, 10, 7 in insertion order rank as 10, 9, the three 8s in insertion order, then 7 |
| `Scenarios.TopAndRosterAfterQueries` | Student_Score_Manager/Services/StudentService.cs:11-30 | after three additions, sorting and asking for the top, the roster is still the three students in insertion order and the top is the one with the strictly highest average |
| `Scenarios.EmptyService` | Student_Score_Manager/Services/StudentService.cs:9-30 | a new service lists no students and has no top student |

## Code and tests disagree on ties

Several tests expect students with equal averages to be ranked by name in
ascending order: StudentServiceTests.cs lines 117-132 and 135-156, and
IntegrationTests.cs lines 11-34. The code at
Student_Score_Manager/Services/StudentService.cs:24 sorts on the average
alone. LINQ's sort is stable, so tied students keep their insertion order.
The model follows the code. `Scenarios.TiesRankedInInsertionOrderNotByName`
proves that the code ranks Tran Thi E, Tran Thi B, Le Van C in that insertion
order, where the test expects Le Van C first. `Scenarios.MixedRosterRanking`
proves that the integration roster ranks its three 8-average students in
insertion order (Nguyen Van A, Tran Thi B, Le Van C), where the test expects
Le Van C third. The name tie-break is therefore not proved of the model.

## Findings

| source | as written | input that shows it | evidently intended | confidence | as-written member | corrected member |
|---|---|---|---|---|---|---|
| Student_Score_Manager/Models/Student.cs:16 | `Score.Math + Score.Physics + Score.Chemistry` is 32-bit `int` addition, which wraps around (C#'s default unchecked context), and only the wrapped sum is divided by 3.0 | ScoreInfo(2147483647, 1, 0): all grades are non-negative, but the sum wraps to -2147483648 and the average is about -715827882.67 | the true mean (about 715827882.67), which lies between the smallest and largest grade | medium (assumes the project is not compiled with overflow checking); not executed | `Models.AverageAsWrittenOverflows` | `Models.Average` |

`Models.AverageAsWritten` is the computation as written. `Models.Average` is
the corrected one, and `Models.AverageWithinGrades` proves its intended
property. The ranking uses `Models.Average`.
`Models.AverageAsWrittenIsExactWithoutOverflow` proves that the two agree
whenever the exact sum fits in 32 bits, which covers the 0..10 grades the
program uses.

## Left out

- FindStudentsByAverageScore: declared at Student_Score_Manager/Services/IStudentService.cs:12 but given no body in StudentService.cs, so there is no behaviour to model; the search its tests expect also rounds doubles to two decimals.
- Student.ToString (Student_Score_Manager/Models/Student.cs:19-22): culture-dependent `F2` formatting of a double, which is presentation only.
- IEEE-754 doubles: averages are exact reals; the argument above shows that the ordering and the ties they induce are the same as those of the doubles.
- Ranking.Rank: keyed on the corrected average `Models.Average` rather than the wrapping one; the two differ only when a grade sum leaves the 32-bit range (see Findings).
- Services.StudentService.GetAllStudents: the C# method returns the live `_students` list, so a caller can change the roster through it; the model returns the sequence value, and changes through that alias are not modelled.
- Null references: after `AddStudent(null)` the ranking and the top query throw a NullReferenceException when the key selector `s => s.GetAverageScore()` (StudentService.cs:24 and 30) calls a method on the null student; a student whose `Score` is null throws inside `GetAverageScore` (Student.cs:16). Students in the model are values, never null.
- Object identity and property setters: `Student` and `ScoreInfo` have public setters, but nothing in the service changes a stored student; the model treats records as values and distinguishes entries by position.
- Ranking algorithm: LINQ uses its own stable sort and the model uses insertion sort; `Ranking.RankIsUnique` shows that every stable descending sort gives the same result.
- Program.cs (dependency-injection setup and console printing of a demo roster) and the VolumeDiscountForm web component are outside this model.
