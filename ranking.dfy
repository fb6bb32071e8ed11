/**
 * The ordering behind StudentService's queries:
 * `OrderByDescending(s => s.GetAverageScore())`. LINQ's ordering is a stable
 * sort keyed on the average alone, so students whose averages are equal keep
 * the order in which they were added. It is modelled as an insertion sort
 * that takes the students in insertion order and puts each one after every
 * student already placed whose average is at least its own.
 */
module Ranking {
  import opened Wrappers
  import opened Models

  /** Averages never increase along `r` (descending order, ties allowed). */
  ghost predicate NonIncreasing(r: seq<Student>)
  {
    forall i, j :: 0 <= i < j < |r| ==> Average(r[i]) >= Average(r[j])
  }

  /** The students of `s` whose average is exactly `k`, in their order in `s`. */
  function Ties(s: seq<Student>, k: real): seq<Student>
  {
    if s == [] then []
    else if Average(s[0]) == k then [s[0]] + Ties(s[1..], k)
    else Ties(s[1..], k)
  }

  /** Places `x` after every student of `r` whose average is at least its own. */
  function Insert(r: seq<Student>, x: Student): (r': seq<Student>)
    ensures |r'| == |r| + 1
    ensures multiset(r') == multiset(r) + multiset{x}
  {
    if r == [] then [x]
    else if Average(r[0]) >= Average(x) then
      assert r == [r[0]] + r[1..];
      [r[0]] + Insert(r[1..], x)
    else [x] + r
  }

  /**
   * GetStudentsSortedByAverage: the stable descending ranking. The result is
   * a permutation of the roster (same length, same students, duplicates kept).
   */
  function Rank(s: seq<Student>): (r: seq<Student>)
    ensures |r| == |s|
    ensures multiset(r) == multiset(s)
  {
    if s == [] then []
    else
      assert s == s[..|s| - 1] + [s[|s| - 1]];
      Insert(Rank(s[..|s| - 1]), s[|s| - 1])
  }

  /** GetStudentWithHighestAverage: the first of the ranking, absent (null) on an empty roster. */
  function Top(s: seq<Student>): Option<Student>
  {
    if |s| == 0 then None else Some(Rank(s)[0])
  }

  // ---------------------------------------------------------------------------
  // Facts about Ties

  lemma {:induction false} TiesMembers(s: seq<Student>, k: real)
    ensures forall x :: x in Ties(s, k) ==> x in s && Average(x) == k
  {
    if s != [] {
      TiesMembers(s[1..], k);
    }
  }

  lemma {:induction false} TiesAppend(a: seq<Student>, b: seq<Student>, k: real)
    ensures Ties(a + b, k) == Ties(a, k) + Ties(b, k)
  {
    if a != [] {
      assert (a + b)[1..] == a[1..] + b;
      TiesAppend(a[1..], b, k);
    } else {
      assert a + b == b;
    }
  }

  /** No student of `s` has average `k`, so nothing ties at `k`. */
  lemma {:induction false} TiesEmpty(s: seq<Student>, k: real)
    requires forall x :: x in s ==> Average(x) != k
    ensures Ties(s, k) == []
  {
    if s != [] {
      assert forall x :: x in s[1..] ==> x in s;
      TiesEmpty(s[1..], k);
    }
  }

  /** A student of average `k` in `s` makes Ties(s, k) non-empty. */
  lemma {:induction false} TiesNonEmpty(s: seq<Student>, k: real, i: nat)
    requires i < |s| && Average(s[i]) == k
    ensures Ties(s, k) != []
  {
    if i > 0 {
      TiesNonEmpty(s[1..], k, i - 1);
    }
  }

  /** In a sequence whose students all average `k'`, everything ties at `k'` and nothing elsewhere. */
  lemma {:induction false} TiesOfTied(s: seq<Student>, k': real, k: real)
    requires forall x :: x in s ==> Average(x) == k'
    ensures Ties(s, k) == if k == k' then s else []
  {
    if s != [] {
      assert forall x :: x in s[1..] ==> x in s;
      TiesOfTied(s[1..], k', k);
      assert s == [s[0]] + s[1..];
    }
  }

  /** Students before position `i` with a different average do not contribute to Ties. */
  lemma {:induction false} TiesSkipPrefix(s: seq<Student>, k: real, i: nat)
    requires i <= |s|
    requires forall j :: 0 <= j < i ==> Average(s[j]) != k
    ensures Ties(s, k) == Ties(s[i..], k)
  {
    if i > 0 {
      assert s[1..][i - 1..] == s[i..];
      TiesSkipPrefix(s[1..], k, i - 1);
    }
  }

  // ---------------------------------------------------------------------------
  // Insert keeps the order and the ties

  lemma NonIncreasingTail(r: seq<Student>)
    requires r != [] && NonIncreasing(r)
    ensures NonIncreasing(r[1..])
  {
  }

  /** The head of a non-increasing sequence has the largest average. */
  lemma NonIncreasingHeadIsMax(r: seq<Student>)
    requires r != [] && NonIncreasing(r)
    ensures forall x :: x in r ==> Average(x) <= Average(r[0])
  {
    forall x | x in r
      ensures Average(x) <= Average(r[0])
    {
      var j :| 0 <= j < |r| && r[j] == x;
      if j > 0 { assert Average(r[0]) >= Average(r[j]); }
    }
  }

  lemma ConsNonIncreasing(h: Student, t: seq<Student>)
    requires NonIncreasing(t)
    requires forall y :: y in t ==> Average(y) <= Average(h)
    ensures NonIncreasing([h] + t)
  {
    var r := [h] + t;
    forall i, j | 0 <= i < j < |r|
      ensures Average(r[i]) >= Average(r[j])
    {
      assert r[j] == t[j - 1];
      if i == 0 {
        assert r[j] in t;
      } else {
        assert r[i] == t[i - 1];
      }
    }
  }

  lemma {:induction false} InsertNonIncreasing(r: seq<Student>, x: Student)
    requires NonIncreasing(r)
    ensures NonIncreasing(Insert(r, x))
  {
    if r == [] {
    } else if Average(r[0]) >= Average(x) {
      NonIncreasingTail(r);
      NonIncreasingHeadIsMax(r);
      var tail := Insert(r[1..], x);
      InsertNonIncreasing(r[1..], x);
      forall y | y in tail
        ensures Average(y) <= Average(r[0])
      {
        assert y in multiset(r[1..]) + multiset{x};
        if y != x {
          assert y in r[1..];
        }
      }
      ConsNonIncreasing(r[0], tail);
    } else {
      NonIncreasingHeadIsMax(r);
      ConsNonIncreasing(x, r);
    }
  }

  /** Ties of a non-empty sequence: those of its head, then those of the rest. */
  lemma TiesHead(s: seq<Student>, k: real)
    requires s != []
    ensures Ties(s, k) == Ties([s[0]], k) + Ties(s[1..], k)
  {
    assert [s[0]][1..] == [];
  }

  /** Ties of a sequence split at its head. */
  lemma TiesCons(h: Student, t: seq<Student>, k: real)
    ensures Ties([h] + t, k) == Ties([h], k) + Ties(t, k)
  {
    TiesAppend([h], t, k);
  }

  /** Inserting `x` in front of students with smaller averages adds it at the end of its ties. */
  lemma InsertTiesInFront(r: seq<Student>, x: Student, k: real)
    requires r != [] && NonIncreasing(r) && Average(r[0]) < Average(x)
    ensures Ties([x] + r, k) == Ties(r, k) + Ties([x], k)
  {
    TiesCons(x, r, k);
    if Average(x) == k {
      NonIncreasingHeadIsMax(r);
      TiesEmpty(r, k);
    }
  }

  /** One step of InsertTies: `x` goes behind the head, whose ties stay in front. */
  lemma InsertTiesBehindHead(r: seq<Student>, tail: seq<Student>, x: Student, k: real)
    requires r != []
    requires Ties(tail, k) == Ties(r[1..], k) + Ties([x], k)
    ensures Ties([r[0]] + tail, k) == Ties(r, k) + Ties([x], k)
  {
    var h, rest, tx := Ties([r[0]], k), Ties(r[1..], k), Ties([x], k);
    TiesCons(r[0], tail, k);
    TiesHead(r, k);
    assert h + (rest + tx) == (h + rest) + tx;
  }

  lemma {:induction false} InsertTies(r: seq<Student>, x: Student, k: real)
    requires NonIncreasing(r)
    ensures Ties(Insert(r, x), k) == Ties(r, k) + Ties([x], k)
  {
    if r == [] {
    } else if Average(r[0]) >= Average(x) {
      NonIncreasingTail(r);
      InsertTies(r[1..], x, k);
      InsertTiesBehindHead(r, Insert(r[1..], x), x, k);
    } else {
      InsertTiesInFront(r, x, k);
    }
  }

  // ---------------------------------------------------------------------------
  // The ranking: sorted, stable, and determined by those two facts

  /** Every adjacent pair of the ranking has non-increasing averages (and so does every pair). */
  lemma {:induction false} RankNonIncreasing(s: seq<Student>)
    ensures NonIncreasing(Rank(s))
    ensures forall i :: 0 <= i < |Rank(s)| - 1 ==> Average(Rank(s)[i]) >= Average(Rank(s)[i + 1])
  {
    if s != [] {
      RankNonIncreasing(s[..|s| - 1]);
      InsertNonIncreasing(Rank(s[..|s| - 1]), s[|s| - 1]);
    }
  }

  /**
   * Stability: for every average `k`, the students with that average appear
   * in the ranking in exactly their insertion order.
   */
  lemma {:induction false} RankStable(s: seq<Student>, k: real)
    ensures Ties(Rank(s), k) == Ties(s, k)
  {
    if s != [] {
      var init, last := s[..|s| - 1], s[|s| - 1];
      RankStable(init, k);
      RankNonIncreasing(init);
      InsertTies(Rank(init), last, k);
      TiesAppend(init, [last], k);
      assert init + [last] == s;
    }
  }

  lemma {:induction false} SameOrderAndTiesAreEqual(a: seq<Student>, b: seq<Student>)
    requires NonIncreasing(a) && NonIncreasing(b)
    requires forall k :: Ties(a, k) == Ties(b, k)
    ensures a == b
    decreases |a| + |b|
  {
    if a == [] && b == [] {
    } else if a == [] {
      TiesNonEmpty(b, Average(b[0]), 0);
      assert false;
    } else if b == [] {
      TiesNonEmpty(a, Average(a[0]), 0);
      assert false;
    } else {
      var ka, kb := Average(a[0]), Average(b[0]);
      NonIncreasingHeadIsMax(a);
      NonIncreasingHeadIsMax(b);
      TiesMembers(a, kb);
      TiesMembers(b, ka);
      TiesNonEmpty(a, ka, 0);
      assert Ties(b, ka)[0] in Ties(b, ka);
      TiesNonEmpty(b, kb, 0);
      assert Ties(a, kb)[0] in Ties(a, kb);
      assert ka == kb;
      var ta, tb := Ties(a[1..], ka), Ties(b[1..], ka);
      assert [a[0]] + ta == [b[0]] + tb;
      assert a[0] == ([a[0]] + ta)[0] && b[0] == ([b[0]] + tb)[0];
      assert ta == ([a[0]] + ta)[1..] && tb == ([b[0]] + tb)[1..];
      forall k
        ensures Ties(a[1..], k) == Ties(b[1..], k)
      {
        assert Ties(a, k) == Ties(b, k);
      }
      NonIncreasingTail(a);
      NonIncreasingTail(b);
      SameOrderAndTiesAreEqual(a[1..], b[1..]);
      assert a == [a[0]] + a[1..] && b == [b[0]] + b[1..];
    }
  }

  /**
   * The ranking is the only order of the roster that is non-increasing and
   * keeps insertion order among equal averages.
   */
  lemma RankIsUnique(s: seq<Student>, r: seq<Student>)
    requires NonIncreasing(r)
    requires forall k :: Ties(r, k) == Ties(s, k)
    ensures r == Rank(s)
  {
    RankNonIncreasing(s);
    forall k
      ensures Ties(r, k) == Ties(Rank(s), k)
    {
      RankStable(s, k);
    }
    SameOrderAndTiesAreEqual(r, Rank(s));
  }

  /** When every student has the same average, the ranking is the insertion order. */
  lemma AllTiedKeepInsertionOrder(s: seq<Student>, k: real)
    requires forall x :: x in s ==> Average(x) == k
    ensures Rank(s) == s
  {
    assert NonIncreasing(s);
    RankIsUnique(s, s);
  }

  // ---------------------------------------------------------------------------
  // The top student

  /**
   * Top is absent exactly on an empty roster; otherwise it is a stored
   * student whose average is at least every stored student's average.
   */
  lemma TopIsMaximum(s: seq<Student>)
    ensures Top(s).None? <==> s == []
    ensures Top(s).Some? ==> Top(s).value in s
    ensures Top(s).Some? ==> forall x :: x in s ==> Average(x) <= Average(Top(s).value)
  {
    if s != [] {
      var r := Rank(s);
      RankNonIncreasing(s);
      NonIncreasingHeadIsMax(r);
      assert r[0] in multiset(r);
      forall x | x in s
        ensures Average(x) <= Average(r[0])
      {
        assert x in multiset(s);
      }
    }
  }

  /** Among several students sharing the highest average, Top is the one added first. */
  lemma TopIsFirstAddedMaximum(s: seq<Student>, i: nat)
    requires i < |s|
    requires forall j :: 0 <= j < |s| ==> Average(s[j]) <= Average(s[i])
    requires forall j :: 0 <= j < i ==> Average(s[j]) < Average(s[i])
    ensures Top(s) == Some(s[i])
  {
    var k, r := Average(s[i]), Rank(s);
    TopIsMaximum(s);
    assert Average(r[0]) == k by {
      assert s[i] in multiset(r);
    }
    RankStable(s, k);
    TiesSkipPrefix(s, k, i);
    assert s[i..] == [s[i]] + s[i + 1..];
    assert Ties(r, k)[0] == r[0];
    assert Ties(s[i..], k)[0] == s[i];
  }
}
