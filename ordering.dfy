/**
 * The `ORDER BY` clauses of the action layer, as a stable insertion sort under a
 * comparator `le` ("may come before"). SQL leaves the order of ties open; the
 * model keeps tied rows in table order.
 */
module Ordering {

  ghost predicate Total<T(!new)>(le: (T, T) -> bool) {
    forall a, b :: le(a, b) || le(b, a)
  }

  ghost predicate Transitive<T(!new)>(le: (T, T) -> bool) {
    forall a, b, c :: le(a, b) && le(b, c) ==> le(a, c)
  }

  /** Every element may come before every later one. */
  predicate SortedBy<T>(s: seq<T>, le: (T, T) -> bool) {
    forall i, j :: 0 <= i < j < |s| ==> le(s[i], s[j])
  }

  /** Puts `x` in front of the first element it may precede. */
  function Insert<T>(x: T, s: seq<T>, le: (T, T) -> bool): (r: seq<T>)
    ensures |r| == |s| + 1
    ensures multiset(r) == multiset(s) + multiset{x}
  {
    if |s| == 0 then [x]
    else if le(x, s[0]) then [x] + s
    else
      assert s == [s[0]] + s[1..];
      [s[0]] + Insert(x, s[1..], le)
  }

  function SortBy<T>(s: seq<T>, le: (T, T) -> bool): (r: seq<T>)
    ensures |r| == |s|
    ensures multiset(r) == multiset(s)
  {
    if |s| == 0 then []
    else
      assert s == [s[0]] + s[1..];
      Insert(s[0], SortBy(s[1..], le), le)
  }

  /** Sorting keeps exactly the same elements. */
  lemma SortByMembers<T>(s: seq<T>, le: (T, T) -> bool)
    ensures forall x :: x in SortBy(s, le) <==> x in s
  {
    var r := SortBy(s, le);
    forall x ensures x in r <==> x in s {
      assert x in r <==> x in multiset(r);
      assert x in s <==> x in multiset(s);
    }
  }

  /** Every window of a sorted sequence is sorted. */
  lemma SortedSlice<T>(s: seq<T>, le: (T, T) -> bool, i: int, j: int)
    requires SortedBy(s, le) && 0 <= i <= j <= |s|
    ensures SortedBy(s[i..j], le)
  {
    forall a, b | 0 <= a < b < j - i ensures le(s[i..j][a], s[i..j][b]) {
      assert s[i..j][a] == s[i + a] && s[i..j][b] == s[i + b];
    }
  }

  lemma {:induction false} InsertSorted<T(!new)>(x: T, s: seq<T>, le: (T, T) -> bool)
    requires Total(le) && Transitive(le)
    requires SortedBy(s, le)
    ensures SortedBy(Insert(x, s, le), le)
  {
    if |s| > 0 && !le(x, s[0]) {
      var rest := Insert(x, s[1..], le);
      InsertSorted(x, s[1..], le);
      assert le(s[0], x);
      forall k | 0 <= k < |rest| ensures le(s[0], rest[k]) {
        assert rest[k] in multiset(rest);
        assert rest[k] in multiset(s[1..]) + multiset{x};
        if rest[k] != x {
          assert rest[k] in multiset(s[1..]);
          var m :| 0 <= m < |s[1..]| && s[1..][m] == rest[k];
          assert s[1..][m] == s[m + 1];
        }
      }
    }
  }

  /** Sorting under a total, transitive comparator yields a sorted permutation. */
  lemma {:induction false} SortBySorted<T(!new)>(s: seq<T>, le: (T, T) -> bool)
    requires Total(le) && Transitive(le)
    ensures SortedBy(SortBy(s, le), le)
  {
    if |s| > 0 {
      SortBySorted(s[1..], le);
      InsertSorted(s[0], SortBy(s[1..], le), le);
    }
  }

  /** Code-point lexicographic order on strings (`ORDER BY name ASC` under the C collation). */
  predicate LexLe(a: string, b: string) {
    |a| == 0 || (|b| > 0 && (a[0] < b[0] || (a[0] == b[0] && LexLe(a[1..], b[1..]))))
  }

  lemma {:induction false} LexLeTotal(a: string, b: string)
    ensures LexLe(a, b) || LexLe(b, a)
  {
    if |a| > 0 && |b| > 0 && a[0] == b[0] {
      LexLeTotal(a[1..], b[1..]);
    }
  }

  lemma {:induction false} LexLeTransitive(a: string, b: string, c: string)
    requires LexLe(a, b) && LexLe(b, c)
    ensures LexLe(a, c)
  {
    if |a| > 0 && a[0] == b[0] && b[0] == c[0] {
      LexLeTransitive(a[1..], b[1..], c[1..]);
    }
  }

  /**
   * PostgreSQL's order on one-dimensional integer arrays: element by element,
   * and a proper prefix before the longer array.
   */
  predicate ArrayLe(a: seq<int>, b: seq<int>) {
    |a| == 0 || (|b| > 0 && (a[0] < b[0] || (a[0] == b[0] && ArrayLe(a[1..], b[1..]))))
  }

  lemma {:induction false} ArrayLeTotal(a: seq<int>, b: seq<int>)
    ensures ArrayLe(a, b) || ArrayLe(b, a)
  {
    if |a| > 0 && |b| > 0 && a[0] == b[0] {
      ArrayLeTotal(a[1..], b[1..]);
    }
  }

  lemma {:induction false} ArrayLeTransitive(a: seq<int>, b: seq<int>, c: seq<int>)
    requires ArrayLe(a, b) && ArrayLe(b, c)
    ensures ArrayLe(a, c)
  {
    if |a| > 0 && a[0] == b[0] && b[0] == c[0] {
      ArrayLeTransitive(a[1..], b[1..], c[1..]);
    }
  }
}
