/**
 * The record types of the roster: a student is a name with three integer
 * grades, and the only derived value is the average of those grades.
 *
 * C# `int` is 32 bits wide and its `+` wraps around in the default unchecked
 * context, so the grades are 32-bit integers here and the sum the source
 * computes is modelled as written (`AverageAsWritten`) beside the exact mean
 * the method is evidently meant to return (`Average`), which the ranking uses.
 */
module Models {

  const Int32Min: int := -0x8000_0000
  const Int32Max: int := 0x7FFF_FFFF
  const TwoTo32: int := 0x1_0000_0000

  type Int32 = x: int | Int32Min <= x <= Int32Max

  /** The three grades of one student (class ScoreInfo). */
  datatype ScoreInfo = ScoreInfo(math: Int32, physics: Int32, chemistry: Int32)

  /** A roster entry (class Student): a name and its grades. */
  datatype Student = Student(name: string, score: ScoreInfo)

  /** The ScoreInfo constructor: keeps the three grades exactly as given. */
  function NewScoreInfo(math: Int32, physics: Int32, chemistry: Int32): (sc: ScoreInfo)
    ensures sc.math == math && sc.physics == physics && sc.chemistry == chemistry
  {
    ScoreInfo(math, physics, chemistry)
  }

  /** The Student constructor: keeps the name and the grade record as given. */
  function NewStudent(name: string, score: ScoreInfo): (s: Student)
    ensures s.name == name && s.score == score
  {
    Student(name, score)
  }

  /** The 32-bit two's-complement value that C# unchecked arithmetic leaves of `x`. */
  function Wrap32(x: int): (r: Int32)
    ensures (x - r) % TwoTo32 == 0
    ensures Int32Min <= x <= Int32Max ==> r == x
  {
    var r := (x - Int32Min) % TwoTo32 + Int32Min;
    assert x - r == TwoTo32 * ((x - Int32Min) / TwoTo32);
    r
  }

  /** The exact sum of the three grades. */
  function GradeSum(sc: ScoreInfo): int
  {
    sc.math + sc.physics + sc.chemistry
  }

  function MinGrade(sc: ScoreInfo): int
  {
    var m := if sc.math <= sc.physics then sc.math else sc.physics;
    if m <= sc.chemistry then m else sc.chemistry
  }

  function MaxGrade(sc: ScoreInfo): int
  {
    var m := if sc.math >= sc.physics then sc.math else sc.physics;
    if m >= sc.chemistry then m else sc.chemistry
  }

  /**
   * GetAverageScore as written: `Math + Physics` and then `+ Chemistry` are
   * 32-bit additions that wrap, and only their result is converted and
   * divided by 3.0. The result is a third of the grade sum wrapped to 32 bits.
   */
  function AverageAsWritten(s: Student): (avg: real)
    ensures 3.0 * avg == Wrap32(GradeSum(s.score)) as real
  {
    var sc := s.score;
    var partial := Wrap32(sc.math + sc.physics);
    assert ((partial + sc.chemistry) - GradeSum(sc)) % TwoTo32 == 0 by {
      var q := (sc.math + sc.physics - partial) / TwoTo32;
      assert (partial + sc.chemistry) - GradeSum(sc) == TwoTo32 * (-q);
    }
    Wrap32OfCongruent(partial + sc.chemistry, GradeSum(sc));
    Wrap32(partial + sc.chemistry) as real / 3.0
  }

  /**
   * GetAverageScore as intended: the true quotient of the grade sum by three,
   * not an integer division.
   */
  function Average(s: Student): (avg: real)
    ensures 3.0 * avg == GradeSum(s.score) as real
  {
    GradeSum(s.score) as real / 3.0
  }

  /** The intended average always lies between the smallest and the largest grade. */
  lemma AverageWithinGrades(s: Student)
    ensures MinGrade(s.score) as real <= Average(s) <= MaxGrade(s.score) as real
  {
  }

  /** Wrapping twice is wrapping once: both leave the same residue modulo 2^32. */
  lemma {:induction false} Wrap32OfCongruent(x: int, y: int)
    requires (x - y) % TwoTo32 == 0
    ensures Wrap32(x) == Wrap32(y)
  {
    var rx, ry := Wrap32(x), Wrap32(y);
    assert (rx - ry) % TwoTo32 == 0 by {
      var a, b, c := (x - rx) / TwoTo32, (y - ry) / TwoTo32, (x - y) / TwoTo32;
      assert rx - ry == TwoTo32 * (b - a + c);
    }
    assert -TwoTo32 < rx - ry < TwoTo32;
  }

  /**
   * Whenever the exact grade sum fits in 32 bits (even if `Math + Physics`
   * alone does not), the average as written is the exact mean.
   */
  lemma {:induction false} AverageAsWrittenIsExactWithoutOverflow(s: Student)
    requires Int32Min <= GradeSum(s.score) <= Int32Max
    ensures AverageAsWritten(s) == Average(s)
  {
  }

  /** For grades on the 0..10 scale the roster uses, both averages agree. */
  lemma GradeScaleAveragesAgree(s: Student)
    requires 0 <= s.score.math <= 10 && 0 <= s.score.physics <= 10 && 0 <= s.score.chemistry <= 10
    ensures AverageAsWritten(s) == Average(s)
    ensures 0.0 <= Average(s) <= 10.0
  {
    AverageAsWrittenIsExactWithoutOverflow(s);
  }

  /**
   * The as-written average leaves the range of the grades: three
   * non-negative grades whose sum passes int.MaxValue give a negative mean.
   */
  lemma AverageAsWrittenOverflows()
    ensures var s := Student("A", ScoreInfo(Int32Max, 1, 0));
      && MinGrade(s.score) >= 0
      && AverageAsWritten(s) < 0.0
      && Average(s) > 0.0
  {
    var s := Student("A", ScoreInfo(Int32Max, 1, 0));
    assert Wrap32(Int32Max + 1) == Int32Min;
    assert Wrap32(Int32Min + 0) == Int32Min;
  }

  /**
   * Comparing two averages is the same as comparing the integer grade sums,
   * so ranking by average and ranking by sum put students in the same order.
   */
  lemma AverageOrderIsGradeSumOrder(a: Student, b: Student)
    ensures Average(a) <= Average(b) <==> GradeSum(a.score) <= GradeSum(b.score)
    ensures Average(a) == Average(b) <==> GradeSum(a.score) == GradeSum(b.score)
  {
  }

  /** Worked averages: (9,8,7) is 8, (10,5,0) is 5, (8,8,9) is 25/3 and not 8. */
  lemma AverageExamples()
    ensures Average(Student("Tran Thi B", ScoreInfo(9, 8, 7))) == 8.0
    ensures Average(Student("Frank", ScoreInfo(10, 5, 0))) == 5.0
    ensures Average(Student("Pham Thi D", ScoreInfo(8, 8, 9))) == 25.0 / 3.0
    ensures Average(Student("Pham Thi D", ScoreInfo(8, 8, 9))) != 8.0
  {
  }

  /** Three equal grades average to that grade, including the bounds 0 and 10. */
  lemma EqualGradesAverage(name: string, k: Int32)
    ensures Average(Student(name, ScoreInfo(k, k, k))) == k as real
    ensures 0 <= k <= 10 ==> AverageAsWritten(Student(name, ScoreInfo(k, k, k))) == k as real
  {
    if 0 <= k <= 10 {
      GradeScaleAveragesAgree(Student(name, ScoreInfo(k, k, k)));
    }
  }
}
