/**
 * Question actions: the vote counters, creating a question with its tags,
 * deleting a question, the question list and the recommendations.
 */
module QuestionActions {
  import opened Wrappers
  import opened Seqs
  import opened Schema
  import opened Paging
  import opened Ordering
  import AnswerActions

  /** A question's two vote counters. */
  datatype Counters = Counters(up: int, down: int)

  /** The counter updates of `upvoteQuestion`, `hasUpvoted` first. */
  function UpvoteCounters(c: Counters, hasUpvoted: bool, hasDownvoted: bool): Counters {
    if hasUpvoted then Counters(c.up - 1, c.down)
    else if hasDownvoted then Counters(c.up + 1, c.down - 1)
    else Counters(c.up + 1, c.down)
  }

  /** The counter updates of `downvoteQuestion`, `hasDownvoted` first. */
  function DownvoteCounters(c: Counters, hasUpvoted: bool, hasDownvoted: bool): Counters {
    if hasDownvoted then Counters(c.up, c.down - 1)
    else if hasUpvoted then Counters(c.up - 1, c.down + 1)
    else Counters(c.up, c.down + 1)
  }

  /**
   * One vote moves the total number of votes by at most one: down by one when it
   * undoes a vote of its own kind, unchanged when it switches sides, up by one
   * otherwise.
   */
  lemma VoteTotalMovesByOne(c: Counters, hasUpvoted: bool, hasDownvoted: bool)
    ensures var u := UpvoteCounters(c, hasUpvoted, hasDownvoted);
            u.up + u.down - (c.up + c.down) ==
              (if hasUpvoted then -1 else if hasDownvoted then 0 else 1)
    ensures var d := DownvoteCounters(c, hasUpvoted, hasDownvoted);
            d.up + d.down - (c.up + c.down) ==
              (if hasDownvoted then -1 else if hasUpvoted then 0 else 1)
    ensures var u := UpvoteCounters(c, hasUpvoted, hasDownvoted);
            var d := DownvoteCounters(c, hasUpvoted, hasDownvoted);
            -1 <= u.up + u.down - (c.up + c.down) <= 1 && -1 <= d.up + d.down - (c.up + c.down) <= 1
  {
  }

  lemma RemovePresentLength(s: seq<int>, other: seq<int>, x: int)
    requires x in s && Count(s, x) + Count(other, x) <= 1
    ensures |RemoveAll(s, x)| == |s| - 1
  {
  }

  lemma RemoveAbsentLength(s: seq<int>, x: int)
    requires x !in s
    ensures |RemoveAll(s, x)| == |s|
  {
    RemoveAllAbsent(s, x);
  }

  /**
   * The counters behave like the answer voter arrays: when the counters hold
   * the lengths of well-formed voter arrays and the flags match membership, the
   * counter update of either vote gives the lengths of the updated arrays.
   */
  lemma CountersTrackVoters(v: AnswerActions.Votes, userId: int, hasUpvoted: bool, hasDownvoted: bool)
    requires AnswerActions.WellFormed(v) && AnswerActions.FlagsMatch(v, userId, hasUpvoted, hasDownvoted)
    ensures var c := Counters(|v.upvotes|, |v.downvotes|);
            var u := AnswerActions.UpvoteVotes(v, userId, hasUpvoted, hasDownvoted);
            var d := AnswerActions.DownvoteVotes(v, userId, hasUpvoted, hasDownvoted);
            && UpvoteCounters(c, hasUpvoted, hasDownvoted) == Counters(|u.upvotes|, |u.downvotes|)
            && DownvoteCounters(c, hasUpvoted, hasDownvoted) == Counters(|d.upvotes|, |d.downvotes|)
  {
    assert Count(v.upvotes, userId) + Count(v.downvotes, userId) <= 1;
    if hasUpvoted {
      RemovePresentLength(v.upvotes, v.downvotes, userId);
    } else {
      RemoveAbsentLength(v.upvotes, userId);
    }
    if hasDownvoted {
      RemovePresentLength(v.downvotes, v.upvotes, userId);
    } else {
      RemoveAbsentLength(v.downvotes, userId);
    }
  }

  function CountersOf(q: Question): Counters { Counters(q.upvotes, q.downvotes) }

  function WithCounters(q: Question, c: Counters): Question { q.(upvotes := c.up, downvotes := c.down) }

  /** The questions table after `upvoteQuestion`'s counter update on the rows with id `questionId`. */
  function UpvotedQuestions(questions: seq<Question>, questionId: int, hasUpvoted: bool, hasDownvoted: bool)
    : (r: seq<Question>)
    ensures |r| == |questions|
    ensures forall k :: 0 <= k < |r| ==>
              r[k] == if questions[k].id == questionId
                      then WithCounters(questions[k], UpvoteCounters(CountersOf(questions[k]), hasUpvoted, hasDownvoted))
                      else questions[k]
  {
    MapWhere(questions, (q: Question) => q.id == questionId,
             (q: Question) => WithCounters(q, UpvoteCounters(CountersOf(q), hasUpvoted, hasDownvoted)))
  }

  /** The questions table after `downvoteQuestion`'s counter update on the rows with id `questionId`. */
  function DownvotedQuestions(questions: seq<Question>, questionId: int, hasUpvoted: bool, hasDownvoted: bool)
    : (r: seq<Question>)
    ensures |r| == |questions|
    ensures forall k :: 0 <= k < |r| ==>
              r[k] == if questions[k].id == questionId
                      then WithCounters(questions[k], DownvoteCounters(CountersOf(questions[k]), hasUpvoted, hasDownvoted))
                      else questions[k]
  {
    MapWhere(questions, (q: Question) => q.id == questionId,
             (q: Question) => WithCounters(q, DownvoteCounters(CountersOf(q), hasUpvoted, hasDownvoted)))
  }

  /** `upvoteQuestion`: the counter update on every row with that id; only the questions table changes. */
  method UpvoteQuestion(db: Store, questionId: int, hasUpvoted: bool, hasDownvoted: bool)
    requires db.Valid()
    modifies db`questions
    ensures db.Valid()
    ensures db.questions == UpvotedQuestions(old(db.questions), questionId, hasUpvoted, hasDownvoted)
  {
    db.UpdateQuestions(UpvotedQuestions(db.questions, questionId, hasUpvoted, hasDownvoted));
  }

  /** `downvoteQuestion`: the mirror image of `UpvoteQuestion`. */
  method DownvoteQuestion(db: Store, questionId: int, hasUpvoted: bool, hasDownvoted: bool)
    requires db.Valid()
    modifies db`questions
    ensures db.Valid()
    ensures db.questions == DownvotedQuestions(old(db.questions), questionId, hasUpvoted, hasDownvoted)
  {
    db.UpdateQuestions(DownvotedQuestions(db.questions, questionId, hasUpvoted, hasDownvoted));
  }

  // ---------------------------------------------------------------- createQuestion

  const NEW_TAG_DESCRIPTION := "Tag Description"

  /** The tag-name lookup `name LIKE '%tagName%'`. */
  predicate NameMatches(t: Tag, tagName: string) { ContainsText(t.name, tagName) }

  /**
   * One tag name resolved against the tags table: the id of the first tag whose
   * name contains it, or a new tag with that name. The triple is the id, the new
   * tags table and the new id counter.
   */
  function ResolveOne(tags: seq<Tag>, nextId: int, tagName: string, now: int): (int, seq<Tag>, int)
  {
    match FindFirst(tags, (t: Tag) => NameMatches(t, tagName))
    case Some(t) => (t.id, tags, nextId)
    case None => (nextId, tags + [Tag(nextId, tagName, NEW_TAG_DESCRIPTION, now, 0)], nextId + 1)
  }

  /** The tag names resolved one after another, each seeing the tags the earlier ones created. */
  function ResolveTags(tags: seq<Tag>, nextId: int, tagNames: seq<string>, now: int): (seq<int>, seq<Tag>, int)
    decreases |tagNames|
  {
    if |tagNames| == 0 then ([], tags, nextId)
    else
      var first := ResolveOne(tags, nextId, tagNames[0], now);
      var rest := ResolveTags(first.1, first.2, tagNames[1..], now);
      ([first.0] + rest.0, rest.1, rest.2)
  }

  /** One name resolves to a tag whose name contains it; a new tag is appended only when none does. */
  lemma ResolveOneSpec(tags: seq<Tag>, nextId: int, tagName: string, now: int)
    ensures var r := ResolveOne(tags, nextId, tagName, now);
      && (exists t :: t in r.1 && t.id == r.0 && NameMatches(t, tagName))
      && ((exists t :: t in tags && NameMatches(t, tagName)) ==> r.1 == tags && r.2 == nextId)
      && ((forall t :: t in tags ==> !NameMatches(t, tagName)) ==>
            r.1 == tags + [Tag(nextId, tagName, NEW_TAG_DESCRIPTION, now, 0)] && r.0 == nextId && r.2 == nextId + 1)
  {
    var r := ResolveOne(tags, nextId, tagName, now);
    if FindFirst(tags, (t: Tag) => NameMatches(t, tagName)).None? {
      ContainsItself(tagName);
      assert r.1[|tags|] == Tag(nextId, tagName, NEW_TAG_DESCRIPTION, now, 0);
    }
  }

  /**
   * Tag resolution yields one id per name and only appends to the tags table;
   * every appended tag carries the default description and a fresh id.
   */
  lemma {:induction false} ResolveTagsShape(tags: seq<Tag>, nextId: int, tagNames: seq<string>, now: int)
    ensures var r := ResolveTags(tags, nextId, tagNames, now);
      && |r.0| == |tagNames|
      && |tags| <= |r.1| && r.1[..|tags|] == tags
      && nextId <= r.2
      && (forall t :: t in r.1[|tags|..] ==> t.description == NEW_TAG_DESCRIPTION && nextId <= t.id < r.2)
    decreases |tagNames|
  {
    if |tagNames| > 0 {
      var first := ResolveOne(tags, nextId, tagNames[0], now);
      ResolveTagsShape(first.1, first.2, tagNames[1..], now);
      var r := ResolveTags(tags, nextId, tagNames, now);
      assert r.1[..|tags|] == tags by {
        assert r.1[..|first.1|] == first.1;
        assert first.1[..|tags|] == tags;
      }
      forall t | t in r.1[|tags|..]
        ensures t.description == NEW_TAG_DESCRIPTION && nextId <= t.id < r.2
      {
        var j :| 0 <= j < |r.1[|tags|..]| && r.1[|tags|..][j] == t;
        if |tags| + j >= |first.1| {
          assert t == r.1[|first.1|..][|tags| + j - |first.1|];
        } else {
          assert t == first.1[|tags| + j];
        }
      }
    }
  }

  /** Resolution never drops a tag row. */
  lemma {:induction false} ResolveTagsKeeps(tags: seq<Tag>, nextId: int, tagNames: seq<string>, now: int, t: Tag)
    requires t in tags
    ensures t in ResolveTags(tags, nextId, tagNames, now).1
    decreases |tagNames|
  {
    if |tagNames| > 0 {
      var first := ResolveOne(tags, nextId, tagNames[0], now);
      assert t in first.1;
      ResolveTagsKeeps(first.1, first.2, tagNames[1..], now, t);
    }
  }

  /** Some row of `tags` has id `id` and a name containing `tagName`. */
  predicate NamesMatchingTag(tags: seq<Tag>, id: int, tagName: string) {
    exists t :: t in tags && t.id == id && NameMatches(t, tagName)
  }

  /** Every resolved id names a tag of the final table whose name contains its tag name. */
  lemma {:induction false} ResolveTagsMatch(tags: seq<Tag>, nextId: int, tagNames: seq<string>, now: int)
    ensures var r := ResolveTags(tags, nextId, tagNames, now);
      && |r.0| == |tagNames|
      && forall k :: 0 <= k < |tagNames| ==> NamesMatchingTag(r.1, r.0[k], tagNames[k])
    decreases |tagNames|
  {
    if |tagNames| > 0 {
      var first := ResolveOne(tags, nextId, tagNames[0], now);
      ResolveOneSpec(tags, nextId, tagNames[0], now);
      var tail := tagNames[1..];
      ResolveTagsMatch(first.1, first.2, tail, now);
      var rest := ResolveTags(first.1, first.2, tail, now);
      var ids := [first.0] + rest.0;
      assert ResolveTags(tags, nextId, tagNames, now) == (ids, rest.1, rest.2);
      var t0 :| t0 in first.1 && t0.id == first.0 && NameMatches(t0, tagNames[0]);
      ResolveTagsKeeps(first.1, first.2, tail, now, t0);
      assert NamesMatchingTag(rest.1, ids[0], tagNames[0]);
      forall k | 1 <= k < |tagNames| ensures NamesMatchingTag(rest.1, ids[k], tagNames[k]) {
        assert ids[k] == rest.0[k - 1] && tail[k - 1] == tagNames[k];
      }
    }
  }

  /** When every name already matches an existing tag, resolution creates no tag. */
  lemma {:induction false} ResolveTagsReuse(tags: seq<Tag>, nextId: int, tagNames: seq<string>, now: int)
    requires forall k :: 0 <= k < |tagNames| ==> exists t :: t in tags && NameMatches(t, tagNames[k])
    ensures ResolveTags(tags, nextId, tagNames, now).1 == tags
    ensures ResolveTags(tags, nextId, tagNames, now).2 == nextId
    decreases |tagNames|
  {
    if |tagNames| > 0 {
      ResolveOneSpec(tags, nextId, tagNames[0], now);
      forall k | 0 <= k < |tagNames[1..]|
        ensures exists t :: t in tags && NameMatches(t, tagNames[1..][k])
      {
        assert tagNames[1..][k] == tagNames[k + 1];
      }
      ResolveTagsReuse(tags, nextId, tagNames[1..], now);
    }
  }

  /** Resolves one tag name against the store, creating the tag when none matches. */
  method ResolveTag(db: Store, tagName: string, now: int) returns (tagId: int)
    requires db.Valid()
    modifies db`tags, db`nextId
    ensures db.Valid()
    ensures (tagId, db.tags, db.nextId) == ResolveOne(old(db.tags), old(db.nextId), tagName, now)
  {
    var existing := FindFirst(db.tags, (t: Tag) => NameMatches(t, tagName));
    if existing.Some? {
      return existing.value.id;
    }
    tagId := db.InsertTag(tagName, NEW_TAG_DESCRIPTION, now);
  }

  /** Resolves the tag names one after another (the `tagNames.map` of `createQuestion`). */
  method ResolveTagList(db: Store, tagNames: seq<string>, now: int) returns (tagIds: seq<int>)
    requires db.Valid()
    modifies db`tags, db`nextId
    ensures db.Valid()
    ensures (tagIds, db.tags, db.nextId) == ResolveTags(old(db.tags), old(db.nextId), tagNames, now)
  {
    tagIds := [];
    assert tagNames[0..] == tagNames;
    ghost var whole := ResolveTags(db.tags, db.nextId, tagNames, now);
    assert tagIds + whole.0 == whole.0;
    var i := 0;
    while i < |tagNames|
      invariant 0 <= i <= |tagNames|
      invariant db.Valid()
      invariant var rest := ResolveTags(db.tags, db.nextId, tagNames[i..], now);
                whole == (tagIds + rest.0, rest.1, rest.2)
    {
      assert tagNames[i..][1..] == tagNames[i + 1..];
      ghost var before := ResolveTags(db.tags, db.nextId, tagNames[i..], now);
      var tagId := ResolveTag(db, tagNames[i], now);
      ghost var rest := ResolveTags(db.tags, db.nextId, tagNames[i + 1..], now);
      assert before == ([tagId] + rest.0, rest.1, rest.2);
      assert (tagIds + [tagId]) + rest.0 == tagIds + ([tagId] + rest.0);
      tagIds := tagIds + [tagId];
      i := i + 1;
    }
    assert tagNames[i..] == [];
    assert tagIds + [] == tagIds;
  }

  /** The question-tag rows linking one question to each tag id, in order. */
  function TagLinks(questionId: int, tagIds: seq<int>): (r: seq<QuestionTag>)
    ensures |r| == |tagIds|
    ensures forall k :: 0 <= k < |r| ==> r[k] == QuestionTag(questionId, tagIds[k])
  {
    seq(|tagIds|, k requires 0 <= k < |tagIds| => QuestionTag(questionId, tagIds[k]))
  }

  /**
   * The links `createQuestion` inserts: one per tag name, in order, each tying the
   * new question to a tag of the final table whose name contains that tag name.
   */
  lemma LinksMatchNames(questionId: int, tags: seq<Tag>, nextId: int, tagNames: seq<string>, now: int)
    ensures var r := ResolveTags(tags, nextId, tagNames, now);
            var links := TagLinks(questionId, r.0);
            && |links| == |tagNames|
            && forall k :: 0 <= k < |links| ==>
                 links[k].questionId == questionId && NamesMatchingTag(r.1, links[k].tagId, tagNames[k])
  {
    ResolveTagsMatch(tags, nextId, tagNames, now);
  }

  /**
   * `createQuestion`: inserts the question, resolves each tag name in order,
   * inserts one question-tag row per name, logs one "ask_question" interaction and
   * adds exactly 5 to the author's reputation. Answers and messages are outside its frame.
   */
  method CreateQuestion(db: Store, title: string, content: string, tagNames: seq<string>, author: int, now: int)
    returns (questionId: int)
    requires db.Valid()
    modifies db`questions, db`tags, db`questionTags, db`interactions, db`users, db`nextId
    ensures db.Valid()
    ensures questionId == old(db.nextId)
    ensures db.questions == old(db.questions) + [Question(questionId, title, content, 0, 0, 0, 0, [], author, now)]
    ensures var r := ResolveTags(old(db.tags), questionId + 1, tagNames, now);
            && db.tags == r.1
            && db.questionTags == old(db.questionTags) + TagLinks(questionId, r.0)
            && db.interactions == old(db.interactions) + [Interaction(r.2, author, AskQuestion, None, Some(questionId), None, [])]
            && db.nextId == r.2 + 1
    ensures db.users == AddReputation(old(db.users), author, 5)
  {
    questionId := db.InsertQuestion(title, content, author, now);
    var tagIds := ResolveTagList(db, tagNames, now);
    db.InsertQuestionTags(TagLinks(questionId, tagIds));
    var _ := db.LogInteraction(author, AskQuestion, None, Some(questionId), None, []);
    db.AddReputationOf(author, 5);
  }

  /** `DELETE FROM questions WHERE id = questionId`. */
  function QuestionsWithout(questions: seq<Question>, questionId: int): (r: seq<Question>)
    ensures forall q :: q in r <==> q in questions && q.id != questionId
  {
    Filter(questions, (q: Question) => q.id != questionId)
  }

  /** `DELETE FROM answers WHERE question_id = questionId`. */
  function AnswersNotOn(answers: seq<Answer>, questionId: int): (r: seq<Answer>)
    ensures forall a :: a in r <==> a in answers && a.questionId != questionId
  {
    Filter(answers, (a: Answer) => a.questionId != questionId)
  }

  /** `DELETE FROM interactions WHERE question_id = questionId`. */
  function InteractionsNotOn(interactions: seq<Interaction>, questionId: int): (r: seq<Interaction>)
    ensures forall i :: i in r <==> i in interactions && i.questionId != Some(questionId)
  {
    Filter(interactions, (i: Interaction) => i.questionId != Some(questionId))
  }

  /** `UPDATE tags SET question_count = question_count - 1`, with no `WHERE`. */
  function AllCountsLowered(tags: seq<Tag>): (r: seq<Tag>)
    ensures |r| == |tags|
    ensures forall k :: 0 <= k < |r| ==> r[k] == tags[k].(questionCount := tags[k].questionCount - 1)
  {
    MapWhere(tags, (t: Tag) => true, (t: Tag) => t.(questionCount := t.questionCount - 1))
  }

  /**
   * `deleteQuestion`: removes the question, its answers and the interactions that
   * refer to it, and lowers the question count of every tag, related or not.
   * Users, question-tag rows and messages stay as they were.
   */
  method DeleteQuestion(db: Store, questionId: int)
    requires db.Valid()
    modifies db`questions, db`answers, db`interactions, db`tags
    ensures db.Valid()
    ensures db.questions == QuestionsWithout(old(db.questions), questionId)
    ensures db.answers == AnswersNotOn(old(db.answers), questionId)
    ensures db.interactions == InteractionsNotOn(old(db.interactions), questionId)
    ensures db.tags == AllCountsLowered(old(db.tags))
  {
    db.KeepQuestions(QuestionsWithout(db.questions, questionId));
    db.KeepAnswers(AnswersNotOn(db.answers, questionId));
    db.KeepInteractions(InteractionsNotOn(db.interactions, questionId));
    db.UpdateTags(AllCountsLowered(db.tags));
  }

  // ---------------------------------------------------------------- getQuestions

  /** One row of the question list: a question joined with one of its tag links, if any. */
  datatype QuestionRow = QuestionRow(question: Question, tagId: Option<int>)

  /** Some question-tag row links `q`. */
  predicate Linked(q: Question, questionTags: seq<QuestionTag>) {
    exists qt :: qt in questionTags && qt.questionId == q.id
  }

  /** One row per link of `q`, in link order: the matched half of the left join. */
  function LinkedRows(q: Question, questionTags: seq<QuestionTag>): (r: seq<QuestionRow>)
    ensures forall row :: row in r ==> row.question == q && row.tagId.Some?
    ensures |r| == 0 <==> !Linked(q, questionTags)
  {
    if |questionTags| == 0 then []
    else
      var qt := questionTags[0];
      var rest := LinkedRows(q, questionTags[1..]);
      var head := if qt.questionId == q.id then [QuestionRow(q, Some(qt.tagId))] else [];
      assert Linked(q, questionTags) ==> |head + rest| > 0 by {
        if Linked(q, questionTags) && qt.questionId != q.id {
          var other :| other in questionTags && other.questionId == q.id;
          assert other in questionTags[1..];
        }
      }
      head + rest
  }

  /** `q` has as many linked rows to `t` as it has links to `t`. */
  lemma {:induction false} LinkedRowsCount(q: Question, questionTags: seq<QuestionTag>, t: int)
    ensures Count(LinkedRows(q, questionTags), QuestionRow(q, Some(t))) == Count(questionTags, QuestionTag(q.id, t))
  {
    if |questionTags| > 0 {
      var qt := questionTags[0];
      var head := if qt.questionId == q.id then [QuestionRow(q, Some(qt.tagId))] else [];
      LinkedRowsCount(q, questionTags[1..], t);
      CountAppend(head, LinkedRows(q, questionTags[1..]), QuestionRow(q, Some(t)));
    }
  }

  /** The rows `questions LEFT JOIN question_tags` gives for one question. */
  function TagRows(q: Question, questionTags: seq<QuestionTag>): (r: seq<QuestionRow>)
    ensures |r| > 0
    ensures forall row :: row in r ==> row.question == q
    ensures QuestionRow(q, None) in r <==> !Linked(q, questionTags)
  {
    var linked := LinkedRows(q, questionTags);
    if |linked| == 0 then [QuestionRow(q, None)] else linked
  }

  /** One row per link of `q`, or a single row without a tag when it has none. */
  lemma TagRowsCount(q: Question, questionTags: seq<QuestionTag>, t: int)
    ensures Count(TagRows(q, questionTags), QuestionRow(q, Some(t))) == Count(questionTags, QuestionTag(q.id, t))
    ensures Count(TagRows(q, questionTags), QuestionRow(q, None)) == if Linked(q, questionTags) then 0 else 1
  {
    LinkedRowsCount(q, questionTags, t);
    if !Linked(q, questionTags) {
      assert QuestionTag(q.id, t) !in questionTags;
      assert Count([QuestionRow(q, None)], QuestionRow(q, None)) == 1;
    }
  }

  /** Some row of `rows` carries the question `q`. */
  predicate Listed(rows: seq<QuestionRow>, q: Question) {
    exists row :: row in rows && row.question == q
  }

  /** Rows listing every question but the last, followed by rows for the last, list them all. */
  lemma ListedSnoc(questions: seq<Question>, init: seq<QuestionRow>, last: seq<QuestionRow>)
    requires |questions| > 0 && |last| > 0 && last[0].question == questions[|questions| - 1]
    requires forall x :: x in questions[..|questions| - 1] ==> Listed(init, x)
    ensures forall x :: x in questions ==> Listed(init + last, x)
  {
    forall x | x in questions ensures Listed(init + last, x) {
      var k :| 0 <= k < |questions| && questions[k] == x;
      if k == |questions| - 1 {
        assert last[0] in init + last;
      } else {
        assert x in questions[..|questions| - 1] && Listed(init, x);
        var row :| row in init && row.question == x;
        assert row in init + last;
      }
    }
  }

  /** `questions LEFT JOIN question_tags`, question by question in table order. */
  function JoinTags(questions: seq<Question>, questionTags: seq<QuestionTag>): (r: seq<QuestionRow>)
    ensures forall row :: row in r ==> row.question in questions
    ensures forall q :: q in questions ==> Listed(r, q)
  {
    if |questions| == 0 then []
    else
      var front, q := questions[..|questions| - 1], questions[|questions| - 1];
      var init := JoinTags(front, questionTags);
      var last := TagRows(q, questionTags);
      ListedSnoc(questions, init, last);
      init + last
  }

  /** Each occurrence of `q` yields one joined row per link of it to `t`. */
  lemma {:induction false} JoinTagsLinkCount(questions: seq<Question>, questionTags: seq<QuestionTag>, q: Question, t: int)
    ensures Count(JoinTags(questions, questionTags), QuestionRow(q, Some(t)))
            == Count(questions, q) * Count(questionTags, QuestionTag(q.id, t))
  {
    if |questions| > 0 {
      var front, last := questions[..|questions| - 1], questions[|questions| - 1];
      JoinTagsLinkCount(front, questionTags, q, t);
      var rows := TagRows(last, questionTags);
      var row := QuestionRow(q, Some(t));
      assert JoinTags(questions, questionTags) == JoinTags(front, questionTags) + rows;
      CountAppend(JoinTags(front, questionTags), rows, row);
      CountLast(questions, q);
      TagRowsCount(last, questionTags, t);
      var c, m := Count(front, q), Count(questionTags, QuestionTag(q.id, t));
      if q == last {
        MulSucc(c, m);
        assert Count(rows, row) == m && Count(questions, q) == c + 1;
      } else {
        assert row !in rows;
        assert Count(rows, row) == 0 && Count(questions, q) == c;
      }
    }
  }

  /** Each occurrence of an unlinked `q` yields one row without a tag; a linked one yields none. */
  lemma {:induction false} JoinTagsBareCount(questions: seq<Question>, questionTags: seq<QuestionTag>, q: Question)
    ensures Count(JoinTags(questions, questionTags), QuestionRow(q, None))
            == if Linked(q, questionTags) then 0 else Count(questions, q)
  {
    if |questions| > 0 {
      var front, last := questions[..|questions| - 1], questions[|questions| - 1];
      JoinTagsBareCount(front, questionTags, q);
      var rows := TagRows(last, questionTags);
      CountAppend(JoinTags(front, questionTags), rows, QuestionRow(q, None));
      CountLast(questions, q);
      TagRowsCount(last, questionTags, 0);
      if q != last {
        assert QuestionRow(q, None) !in rows;
      }
    }
  }

  /**
   * The join has the multiplicities of SQL's left join: each occurrence of a
   * question yields one row per link of it, and a question with no link yields a
   * single row without a tag.
   */
  lemma JoinTagsIsLeftJoin(questions: seq<Question>, questionTags: seq<QuestionTag>)
    ensures forall q, t :: Count(JoinTags(questions, questionTags), QuestionRow(q, Some(t)))
                           == Count(questions, q) * Count(questionTags, QuestionTag(q.id, t))
    ensures forall q :: Count(JoinTags(questions, questionTags), QuestionRow(q, None))
                        == if Linked(q, questionTags) then 0 else Count(questions, q)
  {
    forall q, t
      ensures Count(JoinTags(questions, questionTags), QuestionRow(q, Some(t)))
              == Count(questions, q) * Count(questionTags, QuestionTag(q.id, t))
    {
      JoinTagsLinkCount(questions, questionTags, q, t);
    }
    forall q
      ensures Count(JoinTags(questions, questionTags), QuestionRow(q, None))
              == if Linked(q, questionTags) then 0 else Count(questions, q)
    {
      JoinTagsBareCount(questions, questionTags, q);
    }
  }

  /** `title LIKE '%s%' OR content LIKE '%s%'`. */
  predicate SearchMatches(q: Question, searchQuery: string) {
    ContainsText(q.title, searchQuery) || ContainsText(q.content, searchQuery)
  }

  /** JavaScript truthiness of an optional string: present and non-empty. */
  predicate Truthy(s: Option<string>) { s.Some? && s.value != "" }

  /** The search clause, `true` when there is no search text. */
  predicate SearchClause(q: Question, searchQuery: Option<string>) {
    !Truthy(searchQuery) || SearchMatches(q, searchQuery.value)
  }

  /**
   * The clause the list query ends up with: the "unanswered" filter's `WHERE`
   * replaces the search `WHERE` on the same query builder.
   */
  predicate ListClause(q: Question, searchQuery: Option<string>, filter: string) {
    if filter == "unanswered" then q.answersCount == 0 else SearchClause(q, searchQuery)
  }

  /** The list clause as a test on joined rows. */
  function RowListed(searchQuery: Option<string>, filter: string): QuestionRow -> bool {
    (row: QuestionRow) => ListClause(row.question, searchQuery, filter)
  }

  /** `ORDER BY created_at DESC`. */
  function NewestRowFirst(a: QuestionRow, b: QuestionRow): bool { a.question.createdAt >= b.question.createdAt }

  /** `ORDER BY views DESC`. */
  function MostViewedFirst(a: QuestionRow, b: QuestionRow): bool { a.question.views >= b.question.views }

  lemma RowOrdersAreOrders()
    ensures Total(NewestRowFirst) && Transitive(NewestRowFirst)
    ensures Total(MostViewedFirst) && Transitive(MostViewedFirst)
  {
  }

  /** The list order: newest first, most viewed first, or join order. */
  function OrderRows(rows: seq<QuestionRow>, filter: string): seq<QuestionRow> {
    if filter == "newest" then SortBy(rows, NewestRowFirst)
    else if filter == "frequent" then SortBy(rows, MostViewedFirst)
    else rows
  }

  /**
   * Ordering rearranges the rows without losing or repeating one, sorted newest
   * first under "newest", most viewed first under "frequent", and otherwise leaves
   * them in join order.
   */
  lemma OrderRowsSorts(rows: seq<QuestionRow>, filter: string)
    ensures multiset(OrderRows(rows, filter)) == multiset(rows)
    ensures filter == "newest" ==> SortedBy(OrderRows(rows, filter), NewestRowFirst)
    ensures filter == "frequent" ==> SortedBy(OrderRows(rows, filter), MostViewedFirst)
    ensures filter != "newest" && filter != "frequent" ==> OrderRows(rows, filter) == rows
  {
    RowOrdersAreOrders();
    if filter == "newest" {
      SortBySorted(rows, NewestRowFirst);
    } else if filter == "frequent" {
      SortBySorted(rows, MostViewedFirst);
    }
  }

  /** `count(*)` of the questions matching the search clause. */
  function SearchTotal(questions: seq<Question>, searchQuery: Option<string>): nat {
    |Filter(questions, (q: Question) => SearchClause(q, searchQuery))|
  }

  const DEFAULT_QUESTION_PAGE := 1
  const DEFAULT_QUESTION_PAGE_SIZE := 15

  /**
   * The joined rows that satisfy the list clause, each as often as the join gives
   * it, in the filter's order.
   */
  function ListRows(questions: seq<Question>, questionTags: seq<QuestionTag>, searchQuery: Option<string>,
                    filter: string): (r: seq<QuestionRow>)
    ensures forall row :: row in r <==> row in JoinTags(questions, questionTags) && ListClause(row.question, searchQuery, filter)
    ensures multiset(r) == multiset(Filter(JoinTags(questions, questionTags), RowListed(searchQuery, filter)))
    ensures filter == "newest" ==> SortedBy(r, NewestRowFirst)
    ensures filter == "frequent" ==> SortedBy(r, MostViewedFirst)
  {
    var rows := Filter(JoinTags(questions, questionTags), RowListed(searchQuery, filter));
    OrderRowsSorts(rows, filter);
    assert forall row :: row in OrderRows(rows, filter) <==> row in rows by {
      forall row ensures row in OrderRows(rows, filter) <==> row in rows {
        assert row in OrderRows(rows, filter) <==> row in multiset(OrderRows(rows, filter));
      }
    }
    OrderRows(rows, filter)
  }

  /**
   * `getQuestions`: the listed rows from offset `(page - 1) * pageSize` (defaults 1
   * and 15); `isNext` compares the number of questions matching the search alone
   * with `skip + returned`.
   */
  function GetQuestions(questions: seq<Question>, questionTags: seq<QuestionTag>, searchQuery: Option<string>,
                        filter: string, page: Option<int>, pageSize: Option<int>): (r: Result<(seq<QuestionRow>, bool)>)
    ensures var p := page.GetOr(DEFAULT_QUESTION_PAGE);
            var n := pageSize.GetOr(DEFAULT_QUESTION_PAGE_SIZE);
            && (r.Ok? <==> (p - 1) * n >= 0 && n >= 0)
            && (r.Ok? ==> |r.value.0| <= n)
    ensures r.Ok? ==>
              var p := page.GetOr(DEFAULT_QUESTION_PAGE);
              var n := pageSize.GetOr(DEFAULT_QUESTION_PAGE_SIZE);
              Fetch(ListRows(questions, questionTags, searchQuery, filter), (p - 1) * n, n) == Ok(r.value.0)
    ensures r.Ok? ==> forall row :: row in r.value.0 ==>
              row.question in questions && ListClause(row.question, searchQuery, filter)
    ensures r.Ok? ==>
              var p := page.GetOr(DEFAULT_QUESTION_PAGE);
              var n := pageSize.GetOr(DEFAULT_QUESTION_PAGE_SIZE);
              (r.value.1 <==> SearchTotal(questions, searchQuery) > (p - 1) * n + |r.value.0|)
  {
    var p := page.GetOr(DEFAULT_QUESTION_PAGE);
    var n := pageSize.GetOr(DEFAULT_QUESTION_PAGE_SIZE);
    PageWithTotal(ListRows(questions, questionTags, searchQuery, filter), SearchTotal(questions, searchQuery), (p - 1) * n, n)
  }

  // ---------------------------------------------------------------- getRecommendedQuestions

  /**
   * The tag ids of the user's interactions that join to a tag row, in interaction
   * order, repeats included.
   */
  function UserTagIds(interactions: seq<Interaction>, tags: seq<Tag>, userId: int): (r: seq<int>)
    ensures forall x :: x in r <==>
      (exists i :: i in interactions && i.userId == userId && i.tagId == Some(x)) &&
      (exists t :: t in tags && t.id == x)
  {
    if |interactions| == 0 then []
    else
      var i := interactions[0];
      var rest := UserTagIds(interactions[1..], tags, userId);
      assert forall j :: j in interactions <==> j == i || j in interactions[1..];
      if i.userId == userId && i.tagId.Some? && (exists t :: t in tags && t.id == i.tagId.value)
      then [i.tagId.value] + rest
      else rest
  }

  /** `[...new Set(...)]` over the joined tag ids: the distinct candidate tags. */
  function RecommendedTagIds(interactions: seq<Interaction>, tags: seq<Tag>, userId: int): (r: seq<int>)
    ensures NoDup(r)
    ensures forall x :: x in r <==>
      (exists i :: i in interactions && i.userId == userId && i.tagId == Some(x)) &&
      (exists t :: t in tags && t.id == x)
  {
    Dedup(UserTagIds(interactions, tags, userId))
  }

  /** The recommendation clause: tagged with a candidate tag, not the user's own, matching the search. */
  predicate Recommendable(q: Question, questionTags: seq<QuestionTag>, tagIds: seq<int>, userId: int,
                          searchQuery: Option<string>)
  {
    && (exists qt :: qt in questionTags && qt.questionId == q.id && qt.tagId in tagIds)
    && q.authorId != userId
    && SearchClause(q, searchQuery)
  }

  /** The questions the recommendation clause keeps, in table order. */
  function RecommendedAmong(questions: seq<Question>, questionTags: seq<QuestionTag>, tagIds: seq<int>, userId: int,
                            searchQuery: Option<string>): (r: seq<Question>)
    ensures forall q :: q in r <==> q in questions && Recommendable(q, questionTags, tagIds, userId, searchQuery)
  {
    Filter(questions, (q: Question) => Recommendable(q, questionTags, tagIds, userId, searchQuery))
  }

  /** Page `p` of `n` recommended questions, with the `total > pageSize * page` flag. */
  function RecommendedPage(matching: seq<Question>, p: int, n: int): (r: Result<(seq<Question>, bool)>)
    ensures r.Ok? <==> (p - 1) * n >= 0 && n >= 0
    ensures r.Ok? ==> Fetch(matching, (p - 1) * n, n) == Ok(r.value.0)
    ensures r.Ok? ==> |r.value.0| <= n && forall q :: q in r.value.0 ==> q in matching
    ensures r.Ok? ==> (r.value.1 <==> |matching| > (p - 1) * n + n)
  {
    match Fetch(matching, (p - 1) * n, n)
    case Err(e) => Err(e)
    case Ok(list) =>
      IsNextRulesAgree(matching, p, n);
      assert forall q :: q in list ==> q in matching;
      Ok((list, IsNextByPage(|matching|, p, n)))
  }

  const DEFAULT_RECOMMENDED_PAGE := 1
  const DEFAULT_RECOMMENDED_PAGE_SIZE := 20

  /**
   * `getRecommendedQuestions`: an unknown user is an error; otherwise the page
   * `[(page - 1) * pageSize, +pageSize)` (defaults 1 and 20) of the questions that
   * carry one of the user's interaction tags, are not the user's own and match the
   * search, with `isNext = total > pageSize * page`.
   */
  function GetRecommendedQuestions(users: seq<User>, interactions: seq<Interaction>, tags: seq<Tag>,
                                   questions: seq<Question>, questionTags: seq<QuestionTag>, userId: int,
                                   page: Option<int>, pageSize: Option<int>, searchQuery: Option<string>)
    : (r: Result<(seq<Question>, bool)>)
    ensures (forall u :: u in users ==> u.id != userId) ==> r == Err("User not found")
    ensures var p := page.GetOr(DEFAULT_RECOMMENDED_PAGE);
            var n := pageSize.GetOr(DEFAULT_RECOMMENDED_PAGE_SIZE);
            r.Ok? <==> (exists u :: u in users && u.id == userId) && (p - 1) * n >= 0 && n >= 0
    ensures r.Ok? ==> |r.value.0| <= pageSize.GetOr(DEFAULT_RECOMMENDED_PAGE_SIZE)
    ensures r.Ok? ==>
              var p := page.GetOr(DEFAULT_RECOMMENDED_PAGE);
              var n := pageSize.GetOr(DEFAULT_RECOMMENDED_PAGE_SIZE);
              var tagIds := RecommendedTagIds(interactions, tags, userId);
              Fetch(RecommendedAmong(questions, questionTags, tagIds, userId, searchQuery), (p - 1) * n, n) == Ok(r.value.0)
    ensures r.Ok? ==> forall q :: q in r.value.0 ==>
              && q in questions
              && q.authorId != userId
              && SearchClause(q, searchQuery)
              && exists qt, i :: qt in questionTags && qt.questionId == q.id &&
                   i in interactions && i.userId == userId && i.tagId == Some(qt.tagId)
    ensures r.Ok? ==>
              var p := page.GetOr(DEFAULT_RECOMMENDED_PAGE);
              var n := pageSize.GetOr(DEFAULT_RECOMMENDED_PAGE_SIZE);
              var tagIds := RecommendedTagIds(interactions, tags, userId);
              var total := |RecommendedAmong(questions, questionTags, tagIds, userId, searchQuery)|;
              (r.value.1 <==> total > (p - 1) * n + n)
  {
    match FindFirst(users, (u: User) => u.id == userId)
    case None => Err("User not found")
    case Some(u) =>
      var tagIds := RecommendedTagIds(interactions, tags, u.id);
      var matching := RecommendedAmong(questions, questionTags, tagIds, u.id, searchQuery);
      RecommendedPage(matching, page.GetOr(DEFAULT_RECOMMENDED_PAGE), pageSize.GetOr(DEFAULT_RECOMMENDED_PAGE_SIZE))
  }
}
