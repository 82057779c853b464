/**
 * Offset/limit paging as the action layer issues it (`.offset(o).limit(n)`), and
 * the three ways the actions decide whether a next page exists.
 */
module Paging {
  import opened Wrappers
  import opened Ordering

  function Min(a: int, b: int): int { if a <= b then a else b }
  function Max(a: int, b: int): int { if a >= b then a else b }

  /**
   * `OFFSET offset LIMIT limit` over the already filtered and ordered rows.
   * PostgreSQL rejects a negative OFFSET or LIMIT.
   */
  function Fetch<T>(rows: seq<T>, offset: int, limit: int): (r: Result<seq<T>>)
    ensures r.Ok? <==> offset >= 0 && limit >= 0
    ensures r.Ok? ==> |r.value| == Min(limit, Max(0, |rows| - offset))
    ensures r.Ok? ==> forall k :: 0 <= k < |r.value| ==> r.value[k] == rows[offset + k]
  {
    if offset < 0 then Err("OFFSET must not be negative")
    else if limit < 0 then Err("LIMIT must not be negative")
    else if offset >= |rows| then Ok([])
    else Ok(rows[offset..Min(offset + limit, |rows|)])
  }

  /** A window of the rows sorted by `le`: it is itself sorted and holds only rows of the input. */
  function SortedPage<T(!new)>(rows: seq<T>, le: (T, T) -> bool, offset: int, limit: int): (r: Result<seq<T>>)
    requires Total(le) && Transitive(le)
    ensures r == Fetch(SortBy(rows, le), offset, limit)
    ensures r.Ok? ==> SortedBy(r.value, le) && forall x :: x in r.value ==> x in rows
  {
    var sorted := SortBy(rows, le);
    var fetched := Fetch(sorted, offset, limit);
    if fetched.Err? then fetched
    else
      SortBySorted(rows, le);
      SortByMembers(rows, le);
      assert SortedBy(fetched.value, le) by {
        if offset < |sorted| {
          assert fetched.value == sorted[offset..offset + |fetched.value|];
          SortedSlice(sorted, le, offset, offset + |fetched.value|);
        }
      }
      assert forall x :: x in fetched.value ==> x in sorted;
      fetched
  }

  /**
   * The window of the sorted rows from `offset`, with `isNext = total > offset + returned`,
   * which holds exactly when sorted rows remain after the window.
   */
  function SortedPageAfter<T(!new)>(rows: seq<T>, le: (T, T) -> bool, offset: int, n: int): (r: Result<(seq<T>, bool)>)
    requires Total(le) && Transitive(le)
    ensures r.Ok? <==> offset >= 0 && n >= 0
    ensures r.Ok? ==> Fetch(SortBy(rows, le), offset, n) == Ok(r.value.0)
    ensures r.Ok? ==> |r.value.0| <= n && SortedBy(r.value.0, le) && forall x :: x in r.value.0 ==> x in rows
    ensures r.Ok? ==> (r.value.1 <==> |rows| > offset + n)
  {
    match SortedPage(rows, le, offset, n)
    case Err(e) => Err(e)
    case Ok(list) => Ok((list, IsNextAfter(|rows|, offset, |list|)))
  }

  /**
   * `n + 1` sorted rows fetched from `offset` and all returned, with `isNext` when
   * the extra row came back, which holds exactly when sorted rows remain after
   * the first `n`.
   */
  function SortedPageExtra<T(!new)>(rows: seq<T>, le: (T, T) -> bool, offset: int, n: int): (r: Result<(seq<T>, bool)>)
    requires Total(le) && Transitive(le)
    ensures r.Ok? <==> offset >= 0 && n + 1 >= 0
    ensures r.Ok? ==> Fetch(SortBy(rows, le), offset, n + 1) == Ok(r.value.0)
    ensures r.Ok? ==> |r.value.0| <= n + 1 && SortedBy(r.value.0, le) && forall x :: x in r.value.0 ==> x in rows
    ensures r.Ok? && n >= 0 ==> (r.value.1 <==> |rows| > offset + n)
    ensures r.Ok? && r.value.1 ==> |r.value.0| == n + 1
  {
    match SortedPage(rows, le, offset, n + 1)
    case Err(e) => Err(e)
    case Ok(list) => Ok((list, IsNextByExtraRow(|list|, n)))
  }

  /** Page `page` (counted from 1) of `pageSize` rows: offset `(page - 1) * pageSize`. */
  function PageOf<T>(rows: seq<T>, page: int, pageSize: int): Result<seq<T>>
  {
    Fetch(rows, (page - 1) * pageSize, pageSize)
  }

  /**
   * The window of `rows` at `offset`, with `isNext` comparing a separately counted
   * `total` with the end of what came back.
   */
  function PageWithTotal<T>(rows: seq<T>, total: int, offset: int, n: int): (r: Result<(seq<T>, bool)>)
    ensures r.Ok? <==> offset >= 0 && n >= 0
    ensures r.Ok? ==> Fetch(rows, offset, n) == Ok(r.value.0)
    ensures r.Ok? ==> |r.value.0| <= n
    ensures r.Ok? ==> forall x :: x in r.value.0 ==> x in rows
    ensures r.Ok? ==> (r.value.1 <==> total > offset + |r.value.0|)
  {
    var fetched := Fetch(rows, offset, n);
    if fetched.Err? then Err(fetched.message)
    else
      assert forall x :: x in fetched.value ==> x in rows;
      Ok((fetched.value, IsNextAfter(total, offset, |fetched.value|)))
  }

  /** `total > offset + returned` (getQuestions, getAnswers, getAllTags, getUserQuestions, getUserAnswers). */
  predicate IsNextAfter(total: int, offset: int, returned: int) {
    total > offset + returned
  }

  /** `total > pageSize * page` (getRecommendedQuestions). */
  predicate IsNextByPage(total: int, page: int, pageSize: int) {
    total > pageSize * page
  }

  /** `fetched > pageSize` after fetching `pageSize + 1` rows (getQuestionByTagId, getSavedQuestions). */
  predicate IsNextByExtraRow(fetched: int, pageSize: int) {
    fetched > pageSize
  }

  /**
   * The three rules agree: each says that rows remain beyond the current page.
   */
  lemma IsNextRulesAgree<T>(rows: seq<T>, page: int, pageSize: int)
    requires (page - 1) * pageSize >= 0 && pageSize >= 0
    ensures var offset := (page - 1) * pageSize;
            var returned := |Fetch(rows, offset, pageSize).value|;
            var fetched := |Fetch(rows, offset, pageSize + 1).value|;
            && (IsNextAfter(|rows|, offset, returned) <==> |rows| > offset + pageSize)
            && (IsNextByPage(|rows|, page, pageSize) <==> |rows| > offset + pageSize)
            && (IsNextByExtraRow(fetched, pageSize) <==> |rows| > offset + pageSize)
  {
    assert pageSize * page == (page - 1) * pageSize + pageSize;
  }

  /** The first `limit` rows of a fetch of `limit + 1` rows are the fetch of `limit` rows. */
  lemma FetchOneMore<T>(rows: seq<T>, offset: int, limit: int)
    requires offset >= 0 && limit >= 0
    ensures var more := Fetch(rows, offset, limit + 1).value;
            more[..Min(limit, |more|)] == Fetch(rows, offset, limit).value
  {
  }

  /** Pages 1 to `n` of `pageSize` rows, one after another. */
  function FirstPages<T>(rows: seq<T>, n: nat, pageSize: nat): seq<T>
  {
    if n == 0 then []
    else
      assert (n - 1) * pageSize >= 0;
      FirstPages(rows, n - 1, pageSize) + PageOf(rows, n, pageSize).value
  }

  /**
   * Paging is consistent: pages 1 to `n` concatenated are the single page of
   * `n * pageSize` rows, in the same order and without repeats.
   */
  lemma {:induction false} FirstPagesAreOnePage<T>(rows: seq<T>, n: nat, pageSize: nat)
    ensures n * pageSize >= 0
    ensures FirstPages(rows, n, pageSize) == Fetch(rows, 0, n * pageSize).value
  {
    if n > 0 {
      FirstPagesAreOnePage(rows, n - 1, pageSize);
      var offset := (n - 1) * pageSize;
      assert n * pageSize == offset + pageSize;
      assert offset >= 0;
      var before := Fetch(rows, 0, offset).value;
      var page := PageOf(rows, n, pageSize).value;
      var all := Fetch(rows, 0, n * pageSize).value;
      assert before == rows[..Min(offset, |rows|)];
      assert all == rows[..Min(offset + pageSize, |rows|)];
      if offset >= |rows| {
        assert page == [];
      } else {
        assert page == rows[offset..Min(offset + pageSize, |rows|)];
        assert all == before + page;
      }
    }
  }
}
