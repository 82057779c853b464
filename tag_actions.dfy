/**
 * Tag actions: a user's most interacted tags, the paged tag list with its sort
 * options, and the paged questions of one tag.
 */
module TagActions {
  import opened Wrappers
  import opened Seqs
  import opened Schema
  import opened Paging
  import opened Ordering

  // ---------------------------------------------------------------- getTopInteractedTags

  /** The tag lists of the user's interactions, in table order. */
  function TagLists(interactions: seq<Interaction>, userId: int): (r: seq<seq<int>>)
    ensures |r| == |Filter(interactions, (i: Interaction) => i.userId == userId)|
  {
    var mine := Filter(interactions, (i: Interaction) => i.userId == userId);
    seq(|mine|, k requires 0 <= k < |mine| => mine[k].tags)
  }

  /** `counts` is the `tagCounts` object for the tag ids `s`: one key per id, holding its number of occurrences. */
  ghost predicate Tallies(counts: map<int, nat>, s: seq<int>) {
    && (forall t :: t in counts <==> t in s)
    && (forall t :: t in counts ==> counts[t] == Count(s, t))
  }

  lemma TalliesAt(counts: map<int, nat>, s: seq<int>, t: int)
    requires Tallies(counts, s) && t in s
    ensures t in counts && counts[t] == Count(s, t)
  {
  }

  lemma TalliesAppend(counts: map<int, nat>, s: seq<int>, t: int)
    requires Tallies(counts, s)
    ensures Tallies(counts[t := if t in counts then counts[t] + 1 else 1], s + [t])
  {
    forall x ensures Count(s + [t], x) == Count(s, x) + (if x == t then 1 else 0) {
      CountAppend(s, [t], x);
      assert Count([t], x) == (if t == x then 1 else 0) + Count([t][1..], x);
    }
  }

  /** The inner `forEach` over one interaction's tag list: each id's count goes up by one. */
  method AddTags(counts: map<int, nat>, ghost before: seq<int>, list: seq<int>) returns (c: map<int, nat>)
    requires Tallies(counts, before)
    ensures Tallies(c, before + list)
  {
    c := counts;
    var j := 0;
    assert before + list[..0] == before;
    while j < |list|
      invariant 0 <= j <= |list|
      invariant Tallies(c, before + list[..j])
    {
      var t := list[j];
      TalliesAppend(c, before + list[..j], t);
      assert (before + list[..j]) + [t] == before + list[..j + 1];
      if t in c {
        c := c[t := c[t] + 1];
      } else {
        c := c[t := 1];
      }
      j := j + 1;
    }
    assert list[..j] == list;
  }

  /**
   * The nested `forEach` that builds `tagCounts`: afterwards every tag id that
   * occurs in the lists is a key, no other key exists, and each key holds the
   * number of its occurrences across all the lists (so at least 1).
   */
  method CountTags(lists: seq<seq<int>>) returns (counts: map<int, nat>)
    ensures Tallies(counts, Flatten(lists))
    ensures forall t :: t in counts ==> counts[t] >= 1
  {
    counts := map[];
    var i := 0;
    while i < |lists|
      invariant 0 <= i <= |lists|
      invariant Tallies(counts, Flatten(lists[..i]))
    {
      counts := AddTags(counts, Flatten(lists[..i]), lists[i]);
      assert lists[..i + 1] == lists[..i] + [lists[i]];
      FlattenAppend(lists[..i], lists[i]);
      i := i + 1;
    }
    assert lists[..i] == lists;
  }

  /** One entry of `Object.entries(tagCounts)`. */
  datatype TagCount = TagCount(tagId: int, count: nat)

  function AscendingId(a: int, b: int): bool { a <= b }

  /** The comparator `countB - countA`: larger counts first. */
  function ByCountDesc(a: TagCount, b: TagCount): bool { a.count >= b.count }

  /** The distinct tag ids of the lists, ascending: the order JavaScript lists integer keys in. */
  function Keys(lists: seq<seq<int>>): (r: seq<int>)
    ensures forall t :: t in r <==> t in Flatten(lists)
  {
    var keys := SortBy(Dedup(Flatten(lists)), AscendingId);
    SortByMembers(Dedup(Flatten(lists)), AscendingId);
    keys
  }

  /** `Object.entries(tagCounts)`, from the lists themselves. */
  function Entries(lists: seq<seq<int>>): (r: seq<TagCount>)
    ensures forall e :: e in r ==> e.tagId in Flatten(lists) && e.count == Count(Flatten(lists), e.tagId)
    ensures forall t :: t in Flatten(lists) ==> TagCount(t, Count(Flatten(lists), t)) in r
  {
    var keys, flat := Keys(lists), Flatten(lists);
    var r := seq(|keys|, k requires 0 <= k < |keys| => TagCount(keys[k], Count(flat, keys[k])));
    assert forall e :: e in r ==> e.tagId in flat && e.count == Count(flat, e.tagId) by {
      forall e | e in r ensures e.tagId in flat && e.count == Count(flat, e.tagId) {
        var k :| 0 <= k < |r| && r[k] == e;
        assert e.tagId == keys[k];
      }
    }
    assert forall t :: t in flat ==> TagCount(t, Count(flat, t)) in r by {
      forall t | t in flat ensures TagCount(t, Count(flat, t)) in r {
        var k :| 0 <= k < |keys| && keys[k] == t;
        assert r[k] == TagCount(t, Count(flat, t));
      }
    }
    r
  }

  /** Where `slice(0, end)` stops on a sequence of `len` elements; a negative end counts from the back. */
  function SliceEnd(len: nat, end: int): (r: nat)
    ensures r <= len
    ensures end >= 0 ==> r == Min(end, len)
    ensures end < 0 ==> r == Max(len + end, 0)
  {
    if end >= 0 then (if end <= len then end else len)
    else if len + end >= 0 then len + end else 0
  }

  /** The entries sorted by count, largest first, ties in key order (the sort is stable). */
  function Ranked(lists: seq<seq<int>>): seq<TagCount> {
    SortBy(Entries(lists), ByCountDesc)
  }

  /** `sortedTagIds`: the ids of the first `limit` ranked entries. */
  function TopTagIds(lists: seq<seq<int>>, limit: int): seq<int>
  {
    TopIds(Entries(lists), limit)
  }

  /** The ids of the first `limit` entries once sorted by count. */
  function TopIds(entries: seq<TagCount>, limit: int): (r: seq<int>)
    ensures |r| == SliceEnd(|entries|, limit)
    ensures forall k :: 0 <= k < |r| ==> r[k] == SortBy(entries, ByCountDesc)[k].tagId
  {
    var ranked := SortBy(entries, ByCountDesc);
    var top := ranked[..SliceEnd(|ranked|, limit)];
    seq(|top|, k requires 0 <= k < |top| => top[k].tagId)
  }

  lemma ByCountDescIsOrder()
    ensures Total(ByCountDesc) && Transitive(ByCountDesc)
  {
  }

  /** The ranked entries are sorted by count, each holds its id's true count, and every id has its entry. */
  lemma RankedFacts(lists: seq<seq<int>>)
    ensures var ranked := Ranked(lists);
      && SortedBy(ranked, ByCountDesc)
      && (forall k :: 0 <= k < |ranked| ==>
            ranked[k].tagId in Flatten(lists) && ranked[k].count == Count(Flatten(lists), ranked[k].tagId))
      && (forall t :: t in Flatten(lists) ==> TagCount(t, Count(Flatten(lists), t)) in ranked)
      && |ranked| == |Entries(lists)|
  {
    var entries := Entries(lists);
    var ranked := Ranked(lists);
    ByCountDescIsOrder();
    SortBySorted(entries, ByCountDesc);
    SortByMembers(entries, ByCountDesc);
    forall k | 0 <= k < |ranked|
      ensures ranked[k].tagId in Flatten(lists) && ranked[k].count == Count(Flatten(lists), ranked[k].tagId)
    {
      assert ranked[k] in entries;
    }
  }

  /**
   * `sortedTagIds` holds at most `limit` ids (and no more than the distinct ids),
   * each occurring in the lists, in non-increasing order of count.
   */
  lemma TopTagIdsSorted(lists: seq<seq<int>>, limit: int)
    ensures var r := TopTagIds(lists, limit);
      && |r| <= |Entries(lists)|
      && (limit >= 0 ==> |r| <= limit)
      && (forall x :: x in r ==> x in Flatten(lists))
      && (forall i, j :: 0 <= i < j < |r| ==> Count(Flatten(lists), r[i]) >= Count(Flatten(lists), r[j]))
  {
    RankedFacts(lists);
    var ranked := Ranked(lists);
    var r := TopTagIds(lists, limit);
    assert forall k :: 0 <= k < |r| ==> r[k] == ranked[k].tagId;
    forall i, j | 0 <= i < j < |r|
      ensures Count(Flatten(lists), r[i]) >= Count(Flatten(lists), r[j])
    {
      assert ByCountDesc(ranked[i], ranked[j]);
    }
  }

  /** An entry kept in a sorted prefix counts at least as much as an entry left out of it. */
  lemma PrefixOutranks(ranked: seq<TagCount>, r: seq<int>, i: int, j: int)
    requires SortedBy(ranked, ByCountDesc)
    requires |r| <= |ranked| && forall k :: 0 <= k < |r| ==> r[k] == ranked[k].tagId
    requires 0 <= i < |r| && 0 <= j < |ranked| && ranked[j].tagId !in r
    ensures ranked[i].count >= ranked[j].count
  {
    assert forall k :: 0 <= k < |r| ==> ranked[k].tagId in r;
    assert i < j;
  }

  /** `sortedTagIds` is a top list: no id left out occurs more often than any id kept. */
  lemma TopTagIdsAreTop(lists: seq<seq<int>>, limit: int)
    ensures var r := TopTagIds(lists, limit);
      forall t, x :: t in Flatten(lists) && t !in r && x in r ==>
        Count(Flatten(lists), x) >= Count(Flatten(lists), t)
  {
    RankedFacts(lists);
    var f := Flatten(lists);
    var ranked := Ranked(lists);
    var r := TopTagIds(lists, limit);
    forall t, x | t in f && t !in r && x in r
      ensures Count(f, x) >= Count(f, t)
    {
      var j :| 0 <= j < |ranked| && ranked[j] == TagCount(t, Count(f, t));
      var i :| 0 <= i < |r| && r[i] == x;
      PrefixOutranks(ranked, r, i, j);
      assert ranked[i].count == Count(f, x);
    }
  }

  const DEFAULT_TOP_TAG_LIMIT := 10

  /** `Object.entries(tagCounts)` in key order, read from the map. */
  function CountEntries(keys: seq<int>, counts: map<int, nat>): seq<TagCount>
    requires forall k :: 0 <= k < |keys| ==> keys[k] in counts
  {
    seq(|keys|, k requires 0 <= k < |keys| => TagCount(keys[k], counts[keys[k]]))
  }

  /** Read from a map that tallies the lists, the entries are those of the lists. */
  lemma EntriesFromTallies(lists: seq<seq<int>>, counts: map<int, nat>)
    requires Tallies(counts, Flatten(lists))
    ensures forall k :: 0 <= k < |Keys(lists)| ==> Keys(lists)[k] in counts
    ensures CountEntries(Keys(lists), counts) == Entries(lists)
  {
    var keys := Keys(lists);
    forall k | 0 <= k < |keys| ensures keys[k] in counts && counts[keys[k]] == Count(Flatten(lists), keys[k]) {
      assert keys[k] in keys;
      TalliesAt(counts, Flatten(lists), keys[k]);
    }
  }

  /** `inArray(tags.id, ids)`: the tag rows whose id is listed, in table order. */
  function TagsAmong(tags: seq<Tag>, ids: seq<int>): seq<Tag> {
    Filter(tags, (t: Tag) => t.id in ids)
  }

  /**
   * `getTopInteractedTags`: a user without interactions is an error; otherwise
   * the tag rows whose id is among the user's top-`limit` tags (default 10), in
   * table order, as the final `inArray` select returns them.
   */
  method GetTopInteractedTags(interactions: seq<Interaction>, tags: seq<Tag>, userId: int, limit: Option<int>)
    returns (r: Result<seq<Tag>>)
    ensures Filter(interactions, (i: Interaction) => i.userId == userId) == [] <==> r.Err?
    ensures r.Err? ==> r.message == "No interactions found for this user"
    ensures r.Ok? ==> forall t :: t in r.value <==>
              t in tags && t.id in TopTagIds(TagLists(interactions, userId), limit.GetOr(DEFAULT_TOP_TAG_LIMIT))
    ensures r.Ok? ==> r.value == TagsAmong(tags, TopTagIds(TagLists(interactions, userId), limit.GetOr(DEFAULT_TOP_TAG_LIMIT)))
  {
    var lists := TagLists(interactions, userId);
    if |lists| == 0 {
      return Err("No interactions found for this user");
    }
    var counts := CountTags(lists);
    EntriesFromTallies(lists, counts);
    var entries := CountEntries(Keys(lists), counts);
    var sortedTagIds := TopIds(entries, limit.GetOr(DEFAULT_TOP_TAG_LIMIT));
    r := Ok(TagsAmong(tags, sortedTagIds));
  }

  // ---------------------------------------------------------------- getAllTags

  /** The number of question links of a tag: the `COUNT` the "popular" sort uses. */
  function QuestionCountOf(questionTags: seq<QuestionTag>, tagId: int): nat {
    |Filter(questionTags, (qt: QuestionTag) => qt.tagId == tagId)|
  }

  /** The sort each filter selects; any other filter sorts by name. */
  function TagOrder(filter: string, questionTags: seq<QuestionTag>): (Tag, Tag) -> bool {
    if filter == "popular" then (a: Tag, b: Tag) => QuestionCountOf(questionTags, a.id) >= QuestionCountOf(questionTags, b.id)
    else if filter == "recent" then (a: Tag, b: Tag) => a.createdAt >= b.createdAt
    else if filter == "old" then (a: Tag, b: Tag) => a.createdAt <= b.createdAt
    else (a: Tag, b: Tag) => LexLe(a.name, b.name)
  }

  /** Every sort option is a total preorder, so sorting by it yields a sorted list. */
  lemma TagOrderIsOrder(filter: string, questionTags: seq<QuestionTag>)
    ensures Total(TagOrder(filter, questionTags)) && Transitive(TagOrder(filter, questionTags))
  {
    if filter !in {"popular", "recent", "old"} {
      var le := TagOrder(filter, questionTags);
      forall a: Tag, b: Tag ensures le(a, b) || le(b, a) {
        LexLeTotal(a.name, b.name);
      }
      forall a: Tag, b: Tag, c: Tag | le(a, b) && le(b, c) ensures le(a, c) {
        LexLeTransitive(a.name, b.name, c.name);
      }
    }
  }

  /** The name search: `name ILIKE '%searchQuery%'` when the search text is non-empty. */
  predicate TagSearch(t: Tag, searchQuery: Option<string>) {
    searchQuery.None? || searchQuery.value == "" || ContainsTextIgnoringCase(t.name, searchQuery.value)
  }

  const DEFAULT_TAG_PAGE := 1
  const DEFAULT_TAG_PAGE_SIZE := 20

  /** The tags the search clause keeps, in table order. */
  function MatchingTags(tags: seq<Tag>, searchQuery: Option<string>): (r: seq<Tag>)
    ensures forall t :: t in r <==> t in tags && TagSearch(t, searchQuery)
  {
    Filter(tags, (t: Tag) => TagSearch(t, searchQuery))
  }

  /**
   * `getAllTags`: the matching tags sorted by the filter's order, from offset
   * `(page - 1) * pageSize` (defaults 1 and 20); the page is itself in that order,
   * and `isNext = total > offset + returned` says whether tags remain.
   */
  function GetAllTags(tags: seq<Tag>, questionTags: seq<QuestionTag>, searchQuery: Option<string>, filter: string,
                      page: Option<int>, pageSize: Option<int>): (r: Result<(seq<Tag>, bool)>)
    ensures var p := page.GetOr(DEFAULT_TAG_PAGE);
            var n := pageSize.GetOr(DEFAULT_TAG_PAGE_SIZE);
            && (r.Ok? <==> (p - 1) * n >= 0 && n >= 0)
            && (r.Ok? ==> |r.value.0| <= n)
    ensures r.Ok? ==>
              var p := page.GetOr(DEFAULT_TAG_PAGE);
              var n := pageSize.GetOr(DEFAULT_TAG_PAGE_SIZE);
              Fetch(SortBy(MatchingTags(tags, searchQuery), TagOrder(filter, questionTags)), (p - 1) * n, n) == Ok(r.value.0)
    ensures r.Ok? ==> forall t :: t in r.value.0 ==> t in tags && TagSearch(t, searchQuery)
    ensures r.Ok? ==> SortedBy(r.value.0, TagOrder(filter, questionTags))
    ensures r.Ok? ==>
              var p := page.GetOr(DEFAULT_TAG_PAGE);
              var n := pageSize.GetOr(DEFAULT_TAG_PAGE_SIZE);
              (r.value.1 <==> |MatchingTags(tags, searchQuery)| > (p - 1) * n + n)
  {
    var p := page.GetOr(DEFAULT_TAG_PAGE);
    var n := pageSize.GetOr(DEFAULT_TAG_PAGE_SIZE);
    TagOrderIsOrder(filter, questionTags);
    SortedPageAfter(MatchingTags(tags, searchQuery), TagOrder(filter, questionTags), (p - 1) * n, n)
  }

  // ---------------------------------------------------------------- getQuestionByTagId

  /** One row of `tags LEFT JOIN question_tags LEFT JOIN questions`: the tag name and the linked question, if any. */
  datatype TagQuestionRow = TagQuestionRow(name: string, question: Option<Question>)

  /** Some question row has id `questionId`: the join on `questions` finds a partner. */
  predicate HasQuestion(questions: seq<Question>, questionId: int) {
    exists q :: q in questions && q.id == questionId
  }

  /** Some link points at the tag: the join on `question_tags` finds a partner. */
  predicate TagLinked(questionTags: seq<QuestionTag>, tagId: int) {
    exists qt :: qt in questionTags && qt.tagId == tagId
  }

  /** A link of the tag whose question row is missing. */
  function Dangling(tagId: int, questions: seq<Question>): QuestionTag -> bool {
    (qt: QuestionTag) => qt.tagId == tagId && !HasQuestion(questions, qt.questionId)
  }

  /** A tag row with the given name. */
  function Named(name: string): Tag -> bool {
    (t: Tag) => t.name == name
  }

  /**
   * How many rows `tags LEFT JOIN question_tags LEFT JOIN questions` gives one tag
   * row with id `tagId` for the question `x`: one per link to it times the copies
   * of its row. For no question (`x` is None): one per link whose question is
   * missing, or a single row when no link points at the tag.
   */
  function JoinCount(questionTags: seq<QuestionTag>, questions: seq<Question>, tagId: int, x: Option<Question>): nat {
    match x
    case Some(q) => Count(questionTags, QuestionTag(q.id, tagId)) * Count(questions, q)
    case None => if TagLinked(questionTags, tagId) then |Filter(questionTags, Dangling(tagId, questions))| else 1
  }

  /** The question rows with id `questionId`, each joined to the tag name, in table order. */
  function JoinedQuestions(name: string, questionId: int, questions: seq<Question>): (r: seq<TagQuestionRow>)
    ensures forall row :: row in r ==> row.name == name && row.question.Some?
    ensures forall q :: q in questions && q.id == questionId ==> TagQuestionRow(name, Some(q)) in r
    ensures |r| == 0 <==> !HasQuestion(questions, questionId)
  {
    if |questions| == 0 then []
    else
      assert forall q :: q in questions ==> q == questions[0] || q in questions[1..];
      (if questions[0].id == questionId then [TagQuestionRow(name, Some(questions[0]))] else [])
        + JoinedQuestions(name, questionId, questions[1..])
  }

  /** The questions a link joins to: every question with that id, or one empty row. */
  function QuestionRows(name: string, questionId: int, questions: seq<Question>): (r: seq<TagQuestionRow>)
    ensures |r| > 0
    ensures forall row :: row in r ==> row.name == name
    ensures forall q :: q in questions && q.id == questionId ==> TagQuestionRow(name, Some(q)) in r
  {
    var joined := JoinedQuestions(name, questionId, questions);
    if |joined| == 0 then [TagQuestionRow(name, None)] else joined
  }

  /** The rows the links to the tag give, link by link in table order. */
  function LinkedTagRows(name: string, tagId: int, questionTags: seq<QuestionTag>, questions: seq<Question>): (r: seq<TagQuestionRow>)
    ensures forall row :: row in r ==> row.name == name
    ensures forall qt, q :: qt in questionTags && qt.tagId == tagId && q in questions && q.id == qt.questionId ==>
              TagQuestionRow(name, Some(q)) in r
    ensures |r| == 0 <==> !TagLinked(questionTags, tagId)
  {
    if |questionTags| == 0 then []
    else
      var qt := questionTags[0];
      assert forall x :: x in questionTags ==> x == qt || x in questionTags[1..];
      (if qt.tagId == tagId then QuestionRows(name, qt.questionId, questions) else [])
        + LinkedTagRows(name, tagId, questionTags[1..], questions)
  }

  /** The joined rows of one tag row: one per link (with its question, when it exists), or one empty row. */
  function LinkRows(t: Tag, questionTags: seq<QuestionTag>, questions: seq<Question>): (r: seq<TagQuestionRow>)
    ensures forall row :: row in r ==> row.name == t.name
    ensures forall qt, q :: qt in questionTags && qt.tagId == t.id && q in questions && q.id == qt.questionId ==>
              TagQuestionRow(t.name, Some(q)) in r
  {
    var linked := LinkedTagRows(t.name, t.id, questionTags, questions);
    if |linked| == 0 then [TagQuestionRow(t.name, None)] else linked
  }

  /** A question joins once per copy of its row when its id matches, and never otherwise. */
  lemma {:induction false} JoinedQuestionsCount(name: string, questionId: int, questions: seq<Question>, q: Question)
    ensures Count(JoinedQuestions(name, questionId, questions), TagQuestionRow(name, Some(q)))
         == if q.id == questionId then Count(questions, q) else 0
  {
    if |questions| > 0 {
      var row := TagQuestionRow(name, Some(q));
      var head := if questions[0].id == questionId then [TagQuestionRow(name, Some(questions[0]))] else [];
      JoinedQuestionsCount(name, questionId, questions[1..], q);
      CountAppend(head, JoinedQuestions(name, questionId, questions[1..]), row);
      assert Count(head, row) == if questions[0].id == questionId && questions[0] == q then 1 else 0 by {
        if |head| > 0 {
          assert head[1..] == [];
        }
      }
    }
  }

  /** A link yields each question with its id once per copy of its row. */
  lemma QuestionRowsCount(name: string, questionId: int, questions: seq<Question>, q: Question)
    ensures Count(QuestionRows(name, questionId, questions), TagQuestionRow(name, Some(q)))
         == if q.id == questionId then Count(questions, q) else 0
  {
    JoinedQuestionsCount(name, questionId, questions, q);
    if |JoinedQuestions(name, questionId, questions)| == 0 {
      assert q.id == questionId ==> q !in questions;
    }
  }

  /** A link yields a single empty row exactly when no question has its id. */
  lemma QuestionRowsEmptyCount(name: string, questionId: int, questions: seq<Question>)
    ensures Count(QuestionRows(name, questionId, questions), TagQuestionRow(name, None))
         == if HasQuestion(questions, questionId) then 0 else 1
  {
    var joined := JoinedQuestions(name, questionId, questions);
    if |joined| == 0 {
      assert [TagQuestionRow(name, None)][1..] == [];
    } else {
      assert TagQuestionRow(name, None) !in joined;
    }
  }

  /** Rows for a question are the links to it times the copies of its row. */
  lemma {:induction false} LinkedTagRowsCount(name: string, tagId: int, questionTags: seq<QuestionTag>, questions: seq<Question>,
                                              q: Question)
    ensures Count(LinkedTagRows(name, tagId, questionTags, questions), TagQuestionRow(name, Some(q)))
         == Count(questionTags, QuestionTag(q.id, tagId)) * Count(questions, q)
  {
    if |questionTags| > 0 {
      var qt := questionTags[0];
      var row := TagQuestionRow(name, Some(q));
      var head := if qt.tagId == tagId then QuestionRows(name, qt.questionId, questions) else [];
      LinkedTagRowsCount(name, tagId, questionTags[1..], questions, q);
      CountAppend(head, LinkedTagRows(name, tagId, questionTags[1..], questions), row);
      QuestionRowsCount(name, qt.questionId, questions, q);
      var c := Count(questions, q);
      var links := Count(questionTags[1..], QuestionTag(q.id, tagId));
      assert Count(LinkedTagRows(name, tagId, questionTags, questions), row) == Count(head, row) + links * c;
      if qt == QuestionTag(q.id, tagId) {
        assert Count(head, row) == c;
        assert Count(questionTags, QuestionTag(q.id, tagId)) == links + 1;
        MulSucc(links, c);
      } else {
        assert Count(head, row) == 0;
        assert Count(questionTags, QuestionTag(q.id, tagId)) == links;
      }
    }
  }

  /** Empty rows are the links whose question row is missing. */
  lemma {:induction false} LinkedTagRowsEmptyCount(name: string, tagId: int, questionTags: seq<QuestionTag>, questions: seq<Question>)
    ensures Count(LinkedTagRows(name, tagId, questionTags, questions), TagQuestionRow(name, None))
         == |Filter(questionTags, Dangling(tagId, questions))|
  {
    if |questionTags| > 0 {
      var qt := questionTags[0];
      var row := TagQuestionRow(name, None);
      var head := if qt.tagId == tagId then QuestionRows(name, qt.questionId, questions) else [];
      LinkedTagRowsEmptyCount(name, tagId, questionTags[1..], questions);
      CountAppend(head, LinkedTagRows(name, tagId, questionTags[1..], questions), row);
      if qt.tagId == tagId {
        QuestionRowsEmptyCount(name, qt.questionId, questions);
      }
      assert Count(head, row) == if Dangling(tagId, questions)(qt) then 1 else 0;
    }
  }

  /** One tag row gives `JoinCount` copies of each row carrying its name, and no other rows. */
  lemma LinkRowsCount(t: Tag, questionTags: seq<QuestionTag>, questions: seq<Question>, name: string, x: Option<Question>)
    ensures Count(LinkRows(t, questionTags, questions), TagQuestionRow(name, x))
         == if t.name == name then JoinCount(questionTags, questions, t.id, x) else 0
  {
    var linked := LinkedTagRows(t.name, t.id, questionTags, questions);
    var row := TagQuestionRow(name, x);
    if t.name != name {
      assert row !in LinkRows(t, questionTags, questions);
    } else if x.Some? {
      LinkedTagRowsCount(t.name, t.id, questionTags, questions, x.value);
      if |linked| == 0 {
        assert QuestionTag(x.value.id, t.id) !in questionTags;
        assert [TagQuestionRow(t.name, None)][1..] == [];
      }
    } else {
      LinkedTagRowsEmptyCount(t.name, t.id, questionTags, questions);
      if |linked| == 0 {
        assert [TagQuestionRow(t.name, None)][1..] == [];
      }
    }
  }

  /**
   * The title search on the joined question: `title ILIKE '%searchQuery%'`, which
   * is not true for a row without a question.
   */
  predicate TitleSearch(row: TagQuestionRow, searchQuery: Option<string>) {
    searchQuery.None? || searchQuery.value == "" ||
    (row.question.Some? && ContainsTextIgnoringCase(row.question.value.title, searchQuery.value))
  }

  /** `ORDER BY questions.created_at DESC`, where PostgreSQL puts NULLs first. */
  function NewestFirst(a: TagQuestionRow, b: TagQuestionRow): bool {
    a.question.None? || (b.question.Some? && a.question.value.createdAt >= b.question.value.createdAt)
  }

  lemma NewestFirstIsOrder()
    ensures Total(NewestFirst) && Transitive(NewestFirst)
  {
  }

  /** The joined rows of each tag row, tag by tag. */
  function TagParts(mine: seq<Tag>, questionTags: seq<QuestionTag>, questions: seq<Question>): (parts: seq<seq<TagQuestionRow>>)
    ensures |parts| == |mine| && forall k :: 0 <= k < |mine| ==> parts[k] == LinkRows(mine[k], questionTags, questions)
  {
    seq(|mine|, k requires 0 <= k < |mine| => LinkRows(mine[k], questionTags, questions))
  }

  /**
   * The joined rows of a list of tag rows carry the names of those tags, and hold
   * every question linked to one of them.
   */
  lemma TagPartsRows(mine: seq<Tag>, questionTags: seq<QuestionTag>, questions: seq<Question>)
    ensures forall row :: row in Flatten(TagParts(mine, questionTags, questions)) ==> exists t :: t in mine && t.name == row.name
    ensures forall t, qt, q ::
              (t in mine && qt in questionTags && qt.tagId == t.id && q in questions && q.id == qt.questionId) ==>
              TagQuestionRow(t.name, Some(q)) in Flatten(TagParts(mine, questionTags, questions))
  {
    var parts := TagParts(mine, questionTags, questions);
    FlattenMembers(parts);
    forall t, qt, q | t in mine && qt in questionTags && qt.tagId == t.id && q in questions && q.id == qt.questionId
      ensures TagQuestionRow(t.name, Some(q)) in Flatten(parts)
    {
      var k :| 0 <= k < |mine| && mine[k] == t;
      FlattenContains(parts, k, TagQuestionRow(t.name, Some(q)));
    }
  }

  /** Tag rows sharing the id `tagId` give each row once per tag row with its name, `JoinCount` times. */
  lemma {:induction false} TagPartsCount(mine: seq<Tag>, questionTags: seq<QuestionTag>, questions: seq<Question>, tagId: int,
                                         name: string, x: Option<Question>)
    requires forall t :: t in mine ==> t.id == tagId
    ensures Count(Flatten(TagParts(mine, questionTags, questions)), TagQuestionRow(name, x))
         == |Filter(mine, Named(name))| * JoinCount(questionTags, questions, tagId, x)
  {
    var row := TagQuestionRow(name, x);
    var j := JoinCount(questionTags, questions, tagId, x);
    if |mine| == 0 {
      assert Flatten(TagParts(mine, questionTags, questions)) == [];
    } else {
      var init, last := mine[..|mine| - 1], mine[|mine| - 1];
      var parts := TagParts(mine, questionTags, questions);
      assert parts[..|parts| - 1] == TagParts(init, questionTags, questions);
      TagPartsCount(init, questionTags, questions, tagId, name, x);
      CountAppend(Flatten(TagParts(init, questionTags, questions)), LinkRows(last, questionTags, questions), row);
      LinkRowsCount(last, questionTags, questions, name, x);
      FilterSnoc(mine, Named(name));
      var k := |Filter(init, Named(name))|;
      if last.name == name {
        assert |Filter(mine, Named(name))| == k + 1;
        MulSucc(k, j);
      } else {
        assert |Filter(mine, Named(name))| == k;
      }
    }
  }

  /** `WHERE tags.id = tagId` on the tag rows. */
  function TagsWithId(tags: seq<Tag>, tagId: int): (r: seq<Tag>)
    ensures forall t :: t in r <==> t in tags && t.id == tagId
  {
    Filter(tags, (t: Tag) => t.id == tagId)
  }

  function Searched(searchQuery: Option<string>): TagQuestionRow -> bool {
    (row: TagQuestionRow) => TitleSearch(row, searchQuery)
  }

  /** The joined rows that pass the title search. */
  function SearchedRows(rows: seq<TagQuestionRow>, searchQuery: Option<string>): (r: seq<TagQuestionRow>)
    ensures forall row :: row in r <==> row in rows && TitleSearch(row, searchQuery)
  {
    Filter(rows, Searched(searchQuery))
  }

  /** The rows of the tag with id `tagId` that pass the search, newest question first. */
  function TagQuestionRows(tags: seq<Tag>, questionTags: seq<QuestionTag>, questions: seq<Question>, tagId: int,
                           searchQuery: Option<string>): (r: seq<TagQuestionRow>)
    ensures forall row :: row in r ==> TitleSearch(row, searchQuery) && exists t :: t in tags && t.id == tagId && t.name == row.name
    ensures SortedBy(r, NewestFirst)
  {
    var mine := TagsWithId(tags, tagId);
    var kept := SearchedRows(Flatten(TagParts(mine, questionTags, questions)), searchQuery);
    TagPartsRows(mine, questionTags, questions);
    SortByMembers(kept, NewestFirst);
    NewestFirstIsOrder();
    SortBySorted(kept, NewestFirst);
    SortBy(kept, NewestFirst)
  }

  /** Every question linked to the tag and passing the search is among the rows. */
  lemma TagQuestionRowsComplete(tags: seq<Tag>, questionTags: seq<QuestionTag>, questions: seq<Question>, tagId: int,
                                searchQuery: Option<string>)
    ensures forall t, qt, q ::
              (t in tags && t.id == tagId && qt in questionTags && qt.tagId == tagId && q in questions && q.id == qt.questionId &&
               TitleSearch(TagQuestionRow(t.name, Some(q)), searchQuery)) ==>
              TagQuestionRow(t.name, Some(q)) in TagQuestionRows(tags, questionTags, questions, tagId, searchQuery)
  {
    var mine := TagsWithId(tags, tagId);
    var kept := SearchedRows(Flatten(TagParts(mine, questionTags, questions)), searchQuery);
    TagPartsRows(mine, questionTags, questions);
    SortByMembers(kept, NewestFirst);
  }
  /**
   * The rows keep the join's multiplicities: a row occurs once per tag row with that
   * id and name and `JoinCount` times for each, when it passes the search, and not
   * at all otherwise.
   */
  lemma TagQuestionRowsCount(tags: seq<Tag>, questionTags: seq<QuestionTag>, questions: seq<Question>, tagId: int,
                             searchQuery: Option<string>, name: string, x: Option<Question>)
    ensures Count(TagQuestionRows(tags, questionTags, questions, tagId, searchQuery), TagQuestionRow(name, x))
         == if TitleSearch(TagQuestionRow(name, x), searchQuery)
            then |Filter(TagsWithId(tags, tagId), Named(name))| * JoinCount(questionTags, questions, tagId, x)
            else 0
  {
    var row := TagQuestionRow(name, x);
    var mine := TagsWithId(tags, tagId);
    var joined := Flatten(TagParts(mine, questionTags, questions));
    var kept := SearchedRows(joined, searchQuery);
    TagPartsCount(mine, questionTags, questions, tagId, name, x);
    CountFilter(joined, Searched(searchQuery), row);
    CountMultiset(kept, row);
    CountMultiset(SortBy(kept, NewestFirst), row);
  }


  /** Every element of a flattened sequence comes from one of its parts. */
  lemma {:induction false} FlattenMembers<T>(xss: seq<seq<T>>)
    ensures forall x :: x in Flatten(xss) ==> exists k :: 0 <= k < |xss| && x in xss[k]
  {
    if |xss| > 0 {
      var init := xss[..|xss| - 1];
      FlattenMembers(init);
      forall x | x in Flatten(xss) ensures exists k :: 0 <= k < |xss| && x in xss[k] {
        if x in Flatten(init) {
          var k :| 0 <= k < |init| && x in init[k];
          assert xss[k] == init[k];
        } else {
          assert x in xss[|xss| - 1];
        }
      }
    }
  }

  const DEFAULT_TAG_QUESTIONS_PAGE := 1
  const DEFAULT_TAG_QUESTIONS_PAGE_SIZE := 10

  /** The result of `getQuestionByTagId`. */
  datatype TagQuestions = TagQuestions(tagTitle: string, questions: seq<TagQuestionRow>, isNext: bool)

  /**
   * `getQuestionByTagId`: fetches up to `pageSize + 1` rows from offset
   * `(page - 1) * pageSize` (defaults 1 and 10), returns the first `pageSize` of
   * them, sets `isNext` exactly when rows remain past this page, and takes the tag
   * title from the first fetched row, or "" when there is none.
   */
  function GetQuestionByTagId(tags: seq<Tag>, questionTags: seq<QuestionTag>, questions: seq<Question>, tagId: int,
                              page: Option<int>, pageSize: Option<int>, searchQuery: Option<string>): (r: Result<TagQuestions>)
    ensures var p := page.GetOr(DEFAULT_TAG_QUESTIONS_PAGE);
            var n := pageSize.GetOr(DEFAULT_TAG_QUESTIONS_PAGE_SIZE);
            r.Ok? <==> (p - 1) * n >= 0 && n + 1 >= 0
    ensures var p := page.GetOr(DEFAULT_TAG_QUESTIONS_PAGE);
            var n := pageSize.GetOr(DEFAULT_TAG_QUESTIONS_PAGE_SIZE);
            var rows := TagQuestionRows(tags, questionTags, questions, tagId, searchQuery);
            r.Ok? && n >= 0 ==> Fetch(rows, (p - 1) * n, n) == Ok(r.value.questions)
    ensures var p := page.GetOr(DEFAULT_TAG_QUESTIONS_PAGE);
            var n := pageSize.GetOr(DEFAULT_TAG_QUESTIONS_PAGE_SIZE);
            var rows := TagQuestionRows(tags, questionTags, questions, tagId, searchQuery);
            r.Ok? && n >= 0 ==> (r.value.isNext <==> |rows| > (p - 1) * n + n)
    ensures var n := pageSize.GetOr(DEFAULT_TAG_QUESTIONS_PAGE_SIZE);
            r.Ok? && n == -1 ==> r.value.questions == [] && r.value.isNext
    ensures var p := page.GetOr(DEFAULT_TAG_QUESTIONS_PAGE);
            var n := pageSize.GetOr(DEFAULT_TAG_QUESTIONS_PAGE_SIZE);
            var rows := TagQuestionRows(tags, questionTags, questions, tagId, searchQuery);
            var offset := (p - 1) * n;
            r.Ok? ==> r.value.tagTitle == if n >= 0 && offset < |rows| then rows[offset].name else ""
  {
    var p := page.GetOr(DEFAULT_TAG_QUESTIONS_PAGE);
    var n := pageSize.GetOr(DEFAULT_TAG_QUESTIONS_PAGE_SIZE);
    var rows := TagQuestionRows(tags, questionTags, questions, tagId, searchQuery);
    var offset := (p - 1) * n;
    var r := TagPage(rows, offset, n);
    assert r.Ok? && n >= 0 ==> Fetch(rows, offset, n) == Ok(r.value.questions) && (r.value.isNext <==> |rows| > offset + n);
    r
  }

  /**
   * The page from `offset`: `n + 1` rows fetched, the first `n` kept, `isNext`
   * when the extra row came back, the title from the first fetched row.
   */
  function TagPage(rows: seq<TagQuestionRow>, offset: int, n: int): (r: Result<TagQuestions>)
    ensures r.Ok? <==> offset >= 0 && n + 1 >= 0
    ensures r.Ok? && n >= 0 ==> Fetch(rows, offset, n) == Ok(r.value.questions)
    ensures r.Ok? && n >= 0 ==> (r.value.isNext <==> |rows| > offset + n)
    ensures r.Ok? && n == -1 ==> r.value.questions == [] && r.value.isNext
    ensures r.Ok? ==> r.value.tagTitle == if n >= 0 && offset < |rows| then rows[offset].name else ""
  {
    var fetched := Fetch(rows, offset, n + 1);
    if fetched.Err? then Err(fetched.message)
    else
      var list := fetched.value;
      var title := if |list| > 0 then list[0].name else "";
      assert n >= 0 ==> list[..SliceEnd(|list|, n)] == Fetch(rows, offset, n).value by {
        if n >= 0 {
          FetchOneMore(rows, offset, n);
        }
      }
      Ok(TagQuestions(title, list[..SliceEnd(|list|, n)], IsNextByExtraRow(|list|, n)))
  }
}
