/**
 * Sequence operations the action layer relies on: PostgreSQL's `array_remove`
 * (and JavaScript's `filter(x => x !== v)`, which is the same operation),
 * occurrence counting, de-duplication (`[...new Set(xs)]`), flattening, and the
 * substring test that a `LIKE '%q%'` pattern performs when `q` holds no
 * wildcard.
 */
module Seqs {
  import opened Wrappers

  /** Number of occurrences of `x` in `s`. */
  function Count<T(==)>(s: seq<T>, x: T): (n: nat)
    ensures n <= |s|
    ensures n > 0 <==> x in s
  {
    if |s| == 0 then 0 else (if s[0] == x then 1 else 0) + Count(s[1..], x)
  }

  lemma {:induction false} CountAppend<T>(a: seq<T>, b: seq<T>, x: T)
    ensures Count(a + b, x) == Count(a, x) + Count(b, x)
  {
    if |a| == 0 {
      assert a + b == b;
    } else {
      assert (a + b)[1..] == a[1..] + b;
      CountAppend(a[1..], b, x);
    }
  }

  /** `Count` is the multiplicity in the multiset of the sequence. */
  lemma {:induction false} CountMultiset<T>(s: seq<T>, x: T)
    ensures Count(s, x) == multiset(s)[x]
  {
    if |s| > 0 {
      assert s == [s[0]] + s[1..];
      CountMultiset(s[1..], x);
    }
  }

  /** One more copy adds one more `m`: the step of counting a product. */
  lemma MulSucc(c: nat, m: nat)
    ensures (c + 1) * m == c * m + m
  {
  }

  /** Counting through the last element. */
  lemma {:induction false} CountLast<T>(s: seq<T>, x: T)
    requires |s| > 0
    ensures Count(s, x) == Count(s[..|s| - 1], x) + if s[|s| - 1] == x then 1 else 0
  {
    assert s == s[..|s| - 1] + [s[|s| - 1]];
    CountAppend(s[..|s| - 1], [s[|s| - 1]], x);
  }

  /** `array_remove(s, x)`: every occurrence of `x` dropped, the rest kept in order. */
  function RemoveAll<T(==,!new)>(s: seq<T>, x: T): (r: seq<T>)
    ensures x !in r
    ensures forall y :: y != x ==> (y in r <==> y in s)
    ensures |r| == |s| - Count(s, x)
  {
    if |s| == 0 then []
    else if s[0] == x then RemoveAll(s[1..], x)
    else [s[0]] + RemoveAll(s[1..], x)
  }

  lemma {:induction false} RemoveAllAbsent<T(!new)>(s: seq<T>, x: T)
    requires x !in s
    ensures RemoveAll(s, x) == s
  {
    if |s| > 0 {
      RemoveAllAbsent(s[1..], x);
    }
  }

  lemma {:induction false} RemoveAllConcat<T(!new)>(a: seq<T>, b: seq<T>, x: T)
    ensures RemoveAll(a + b, x) == RemoveAll(a, x) + RemoveAll(b, x)
  {
    if |a| == 0 {
      assert a + b == b;
    } else {
      assert (a + b)[1..] == a[1..] + b;
      RemoveAllConcat(a[1..], b, x);
    }
  }

  /** Appending `x` and then removing it gives what removing it alone gives. */
  lemma RemoveAllAppended<T(!new)>(s: seq<T>, x: T)
    ensures RemoveAll(s + [x], x) == RemoveAll(s, x)
  {
    RemoveAllConcat(s, [x], x);
    assert RemoveAll([x], x) == [];
  }

  /** Removing `x` leaves the count of every other value unchanged. */
  lemma {:induction false} RemoveAllCount<T(!new)>(s: seq<T>, x: T, y: T)
    ensures Count(RemoveAll(s, x), y) == if y == x then 0 else Count(s, y)
  {
    if |s| > 0 {
      RemoveAllCount(s[1..], x, y);
      if s[0] != x {
        assert ([s[0]] + RemoveAll(s[1..], x))[1..] == RemoveAll(s[1..], x);
      }
    }
  }

  /** The test "is not `x`", as a filter predicate. */
  function Other<T(==)>(x: T): T -> bool {
    (y: T) => y != x
  }

  /** `array_remove(s, x)` is the filter that keeps every element other than `x`. */
  lemma {:induction false} RemoveAllIsFilter<T(!new)>(s: seq<T>, x: T)
    ensures RemoveAll(s, x) == Filter(s, Other(x))
  {
    if |s| > 0 {
      RemoveAllIsFilter(s[1..], x);
    }
  }

  /** `xs` has no repeated element. */
  predicate NoDup<T(==)>(xs: seq<T>) {
    forall i, j :: 0 <= i < j < |xs| ==> xs[i] != xs[j]
  }

  /** `[...new Set(xs)]`: the distinct elements of `xs` in order of first occurrence. */
  function Dedup<T(==,!new)>(xs: seq<T>): (r: seq<T>)
    ensures NoDup(r)
    ensures forall y :: y in r <==> y in xs
    ensures |r| <= |xs|
  {
    if |xs| == 0 then []
    else
      var d := Dedup(xs[..|xs| - 1]);
      assert forall y :: y in xs <==> y in xs[..|xs| - 1] || y == xs[|xs| - 1] by {
        assert xs == xs[..|xs| - 1] + [xs[|xs| - 1]];
      }
      if xs[|xs| - 1] in d then d else d + [xs[|xs| - 1]]
  }

  /** The concatenation of a sequence of sequences, in order (nested `forEach`). */
  function Flatten<T>(xss: seq<seq<T>>): seq<T>
  {
    if |xss| == 0 then [] else Flatten(xss[..|xss| - 1]) + xss[|xss| - 1]
  }

  lemma FlattenAppend<T>(xss: seq<seq<T>>, xs: seq<T>)
    ensures Flatten(xss + [xs]) == Flatten(xss) + xs
  {
    assert (xss + [xs])[..|xss|] == xss;
  }

  /** Every element of every part is in the flattened sequence. */
  lemma {:induction false} FlattenContains<T>(xss: seq<seq<T>>, k: int, x: T)
    requires 0 <= k < |xss| && x in xss[k]
    ensures x in Flatten(xss)
  {
    if k < |xss| - 1 {
      FlattenContains(xss[..|xss| - 1], k, x);
    }
  }

  /**
   * `pat` occurs in `text` as a contiguous block. This is what `LIKE '%pat%'` tests
   * when `pat` holds no `%`, `_` or `\`; those are compared as ordinary characters.
   */
  predicate ContainsText(text: string, pat: string) {
    exists i :: 0 <= i <= |text| && OccursAt(text, pat, i)
  }

  /** `pat` occurs in `text` starting at index `i`. */
  predicate OccursAt(text: string, pat: string, i: int) {
    0 <= i <= |text| - |pat| && text[i..i + |pat|] == pat
  }

  /** ASCII lower-casing, the case folding `ILIKE` applies to ASCII letters. */
  function Lower(s: string): (r: string)
    ensures |r| == |s|
    ensures forall i :: 0 <= i < |s| ==> r[i] == if 'A' <= s[i] <= 'Z' then (s[i] as int + 32) as char else s[i]
  {
    seq(|s|, i requires 0 <= i < |s| => if 'A' <= s[i] <= 'Z' then (s[i] as int + 32) as char else s[i])
  }

  /** `text ILIKE '%pat%'`, for a `pat` without wildcards. */
  predicate ContainsTextIgnoringCase(text: string, pat: string) {
    ContainsText(Lower(text), Lower(pat))
  }

  lemma ContainsItself(s: string)
    ensures ContainsText(s, s)
  {
    assert 0 <= 0 <= |s| && OccursAt(s, s, 0);
  }

  /** The elements of `s` that satisfy `keep`, in order: a `WHERE` clause over a table. */
  function Filter<T(!new)>(s: seq<T>, keep: T -> bool): (r: seq<T>)
    ensures |r| <= |s|
    ensures forall y :: y in r <==> y in s && keep(y)
  {
    if |s| == 0 then []
    else if keep(s[0]) then [s[0]] + Filter(s[1..], keep)
    else Filter(s[1..], keep)
  }

  lemma {:induction false} FilterConcat<T(!new)>(a: seq<T>, b: seq<T>, keep: T -> bool)
    ensures Filter(a + b, keep) == Filter(a, keep) + Filter(b, keep)
  {
    if |a| == 0 {
      assert a + b == b;
    } else {
      assert (a + b)[1..] == a[1..] + b;
      FilterConcat(a[1..], b, keep);
    }
  }

  /** A filter keeps every copy of an element it keeps. */
  lemma {:induction false} CountFilter<T(!new)>(s: seq<T>, keep: T -> bool, x: T)
    ensures Count(Filter(s, keep), x) == if keep(x) then Count(s, x) else 0
  {
    if |s| > 0 {
      CountFilter(s[1..], keep, x);
      if keep(s[0]) {
        assert ([s[0]] + Filter(s[1..], keep))[1..] == Filter(s[1..], keep);
      }
    }
  }

  /** Filtering through the last element. */
  lemma FilterSnoc<T(!new)>(s: seq<T>, keep: T -> bool)
    requires |s| > 0
    ensures |Filter(s, keep)| == |Filter(s[..|s| - 1], keep)| + if keep(s[|s| - 1]) then 1 else 0
  {
    assert s == s[..|s| - 1] + [s[|s| - 1]];
    FilterConcat(s[..|s| - 1], [s[|s| - 1]], keep);
  }

  /** Two tests that agree on every element keep the same rows. */
  lemma {:induction false} FilterSame<T(!new)>(s: seq<T>, p: T -> bool, q: T -> bool)
    requires forall i :: 0 <= i < |s| ==> p(s[i]) == q(s[i])
    ensures Filter(s, p) == Filter(s, q)
  {
    if |s| > 0 {
      FilterSame(s[1..], p, q);
    }
  }

  /** Nothing satisfies `keep`: the filter is empty. */
  lemma {:induction false} FilterNone<T(!new)>(s: seq<T>, keep: T -> bool)
    requires forall i :: 0 <= i < |s| ==> !keep(s[i])
    ensures Filter(s, keep) == []
  {
    if |s| > 0 {
      FilterNone(s[1..], keep);
    }
  }

  /** Keeping everything that satisfies `keep` leaves a sequence where all of them do. */
  lemma {:induction false} FilterAll<T(!new)>(s: seq<T>, keep: T -> bool)
    requires forall i :: 0 <= i < |s| ==> keep(s[i])
    ensures Filter(s, keep) == s
  {
    if |s| > 0 {
      FilterAll(s[1..], keep);
    }
  }

  /** The first element satisfying `p`: a `SELECT ... WHERE p LIMIT 1`. */
  function FindFirst<T(!new)>(s: seq<T>, p: T -> bool): (r: Option<T>)
    ensures r.None? <==> forall i :: 0 <= i < |s| ==> !p(s[i])
    ensures r.Some? ==> exists i :: 0 <= i < |s| && s[i] == r.value && p(s[i]) &&
                                    forall j :: 0 <= j < i ==> !p(s[j])
  {
    if |s| == 0 then None
    else if p(s[0]) then Some(s[0])
    else
      var r := FindFirst(s[1..], p);
      assert r.Some? ==> exists i :: 1 <= i < |s| && s[i] == r.value && p(s[i]) &&
                                     forall j :: 0 <= j < i ==> !p(s[j]) by {
        if r.Some? {
          var i :| 0 <= i < |s[1..]| && s[1..][i] == r.value && p(s[1..][i]) &&
                   forall j :: 0 <= j < i ==> !p(s[1..][j]);
          assert s[i + 1] == r.value && p(s[i + 1]);
          assert forall j :: 0 <= j < i + 1 ==> !p(s[j]) by {
            forall j | 0 <= j < i + 1 ensures !p(s[j]) {
              if j > 0 { assert s[j] == s[1..][j - 1]; }
            }
          }
        }
      }
      r
  }

  /** The element found is the one at the first index satisfying `p`. */
  lemma {:induction false} FindFirstAt<T(!new)>(s: seq<T>, p: T -> bool, i: int)
    requires 0 <= i < |s| && p(s[i]) && forall j :: 0 <= j < i ==> !p(s[j])
    ensures FindFirst(s, p) == Some(s[i])
  {
    if i > 0 {
      assert s[1..][i - 1] == s[i];
      FindFirstAt(s[1..], p, i - 1);
    }
  }

  /** `UPDATE ... SET f WHERE p`: every row satisfying `p` is rewritten by `f`, in place. */
  function MapWhere<T>(s: seq<T>, p: T -> bool, f: T -> T): (r: seq<T>)
    ensures |r| == |s|
    ensures forall i :: 0 <= i < |s| ==> r[i] == if p(s[i]) then f(s[i]) else s[i]
  {
    seq(|s|, i requires 0 <= i < |s| => if p(s[i]) then f(s[i]) else s[i])
  }
}
