/**
 * User actions: saving questions, deleting a user, and the paged user,
 * saved-question, user-question and user-answer lists.
 */
module UserActions {
  import opened Wrappers
  import opened Seqs
  import opened Schema
  import opened Paging
  import opened Ordering

  // ---------------------------------------------------------------- savedQuestions

  /** `Array.isArray(savedQuestions) ? savedQuestions : []`, the read `toggleSaveQuestion` does. */
  function ArrayOrEmpty(v: SavedValue): seq<int> {
    if v.SavedArray? then v.ids else []
  }

  /**
   * The read `getSavedQuestions` does: text is parsed as JSON, an array is taken
   * as it is, and a missing value is the empty list.
   */
  function DecodeSaved(v: SavedValue): seq<int> {
    match v
    case SavedJson(ids) => ids
    case SavedArray(ids) => ids
    case SavedNull => []
  }

  /** The new value `toggleSaveQuestion` writes, given the list it read: always JSON text. */
  function ToggledList(saved: seq<int>, questionId: int): SavedValue {
    if questionId in saved then SavedJson(RemoveAll(saved, questionId))
    else SavedJson(saved + [questionId])
  }

  /** `toggleSaveQuestion` as written: it writes JSON text but reads only arrays. */
  function ToggleAsWritten(v: SavedValue, questionId: int): SavedValue {
    ToggledList(ArrayOrEmpty(v), questionId)
  }

  /**
   * As written, the second toggle does not undo the first: the text written by the
   * first is read back as the empty list, so a question saved once stays saved
   * after a second toggle, and saving one question drops the ones saved before.
   */
  lemma ToggleAsWrittenDoesNotUndo()
    ensures DecodeSaved(ToggleAsWritten(SavedNull, 7)) == [7]
    ensures DecodeSaved(ToggleAsWritten(ToggleAsWritten(SavedNull, 7), 7)) == [7]
    ensures DecodeSaved(ToggleAsWritten(ToggleAsWritten(SavedNull, 7), 8)) == [8]
  {
  }

  /** The corrected toggle: it reads the saved list the way `getSavedQuestions` does. */
  function Toggle(v: SavedValue, questionId: int): SavedValue {
    ToggledList(DecodeSaved(v), questionId)
  }

  /**
   * A toggle flips whether the question is saved and leaves every other saved id
   * as it was: an unsave removes every occurrence and keeps the others in order,
   * a save appends at the end.
   */
  lemma ToggleFlips(v: SavedValue, questionId: int)
    ensures var saved := DecodeSaved(v);
            var after := DecodeSaved(Toggle(v, questionId));
            && (questionId in after <==> questionId !in saved)
            && (forall y :: y != questionId ==> (y in after <==> y in saved))
            && (questionId !in saved ==> after == saved + [questionId])
            && (questionId in saved ==> |after| == |saved| - Count(saved, questionId))
            && (questionId in saved ==> after == Filter(saved, Other(questionId)))
  {
    var saved := DecodeSaved(v);
    if questionId in saved {
      assert DecodeSaved(Toggle(v, questionId)) == RemoveAll(saved, questionId);
      RemoveAllIsFilter(saved, questionId);
    } else {
      assert DecodeSaved(Toggle(v, questionId)) == saved + [questionId];
    }
  }

  /**
   * Toggling twice restores which questions are saved; from an unsaved state it
   * restores the saved list exactly.
   */
  lemma ToggleTwice(v: SavedValue, questionId: int)
    ensures var saved := DecodeSaved(v);
            var after := DecodeSaved(Toggle(Toggle(v, questionId), questionId));
            && (forall y :: y in after <==> y in saved)
            && (questionId !in saved ==> after == saved)
  {
    var saved := DecodeSaved(v);
    ToggleFlips(v, questionId);
    ToggleFlips(Toggle(v, questionId), questionId);
    if questionId !in saved {
      RemoveAllAppended(saved, questionId);
      RemoveAllAbsent(saved, questionId);
    }
  }

  function FindUser(users: seq<User>, userId: int): Option<User> {
    FindFirst(users, (u: User) => u.id == userId)
  }

  function FindByClerkId(users: seq<User>, clerkId: string): Option<User> {
    FindFirst(users, (u: User) => u.clerkId == clerkId)
  }

  /**
   * `toggleSaveQuestion`, with the corrected read: an unknown user is an error
   * and changes nothing; otherwise the user's saved list is toggled and nothing
   * else changes.
   */
  method ToggleSaveQuestion(db: Store, userId: int, questionId: int) returns (r: Outcome)
    requires db.Valid()
    modifies db`users
    ensures db.Valid()
    ensures match FindUser(old(db.users), userId)
            case None => r == Fail("User not found") && db.users == old(db.users)
            case Some(u) =>
              && r == Pass
              && db.users == MapWhere(old(db.users), (x: User) => x.id == userId,
                                      (x: User) => x.(savedQuestions := Toggle(u.savedQuestions, questionId)))
  {
    var found := FindUser(db.users, userId);
    if found.None? {
      return Fail("User not found");
    }
    var users := MapWhere(db.users, (x: User) => x.id == userId,
                          (x: User) => x.(savedQuestions := Toggle(found.value.savedQuestions, questionId)));
    forall u | u in users ensures u.id < db.nextId {
      var k :| 0 <= k < |users| && users[k] == u;
      assert u.id == db.users[k].id;
    }
    db.users := users;
    r := Pass;
  }

  // ---------------------------------------------------------------- deleteUser

  /** `DELETE FROM questions WHERE author_id = userId`. */
  function QuestionsNotBy(questions: seq<Question>, userId: int): (r: seq<Question>)
    ensures forall q :: q in r <==> q in questions && q.authorId != userId
  {
    Filter(questions, (q: Question) => q.authorId != userId)
  }

  /** `DELETE FROM answers WHERE author_id = userId`. */
  function AnswersNotBy(answers: seq<Answer>, userId: int): (r: seq<Answer>)
    ensures forall a :: a in r <==> a in answers && a.authorId != userId
  {
    Filter(answers, (a: Answer) => a.authorId != userId)
  }

  /** `DELETE FROM users WHERE id = userId`. */
  function UsersWithout(users: seq<User>, userId: int): (r: seq<User>)
    ensures forall u :: u in r <==> u in users && u.id != userId
  {
    Filter(users, (x: User) => x.id != userId)
  }

  /**
   * `deleteUser`: an unknown clerk id is an error and changes nothing; otherwise
   * the user's questions, the user's answers and the user row go, and the deleted
   * row is returned. No other table changes.
   */
  method DeleteUser(db: Store, clerkId: string) returns (r: Result<User>)
    requires db.Valid()
    modifies db`questions, db`answers, db`users
    ensures db.Valid()
    ensures match FindByClerkId(old(db.users), clerkId)
            case None => r == Err("User not found") && db.users == old(db.users)
                         && db.questions == old(db.questions) && db.answers == old(db.answers)
            case Some(u) =>
              && r == Ok(u)
              && db.questions == QuestionsNotBy(old(db.questions), u.id)
              && db.answers == AnswersNotBy(old(db.answers), u.id)
              && db.users == UsersWithout(old(db.users), u.id)
  {
    var found := FindByClerkId(db.users, clerkId);
    if found.None? {
      return Err("User not found");
    }
    var userId := found.value.id;
    db.KeepQuestions(QuestionsNotBy(db.questions, userId));
    db.KeepAnswers(AnswersNotBy(db.answers, userId));
    db.KeepUsers(UsersWithout(db.users, userId));
    r := Ok(found.value);
  }

  // ---------------------------------------------------------------- getAllUsers

  /** The order `getAllUsers` picks: newest first, highest reputation first, or oldest first. */
  function UserOrder(filter: string): (User, User) -> bool {
    if filter == "top_contributors" then (a: User, b: User) => a.reputation >= b.reputation
    else if filter == "new_users" then (a: User, b: User) => a.joinedAt >= b.joinedAt
    else (a: User, b: User) => a.joinedAt <= b.joinedAt
  }

  lemma UserOrderIsOrder(filter: string)
    ensures Total(UserOrder(filter)) && Transitive(UserOrder(filter))
  {
  }

  /** `name ILIKE '%s%' OR username ILIKE '%s%'` when the search text is non-empty. */
  predicate UserSearch(u: User, searchQuery: Option<string>) {
    searchQuery.None? || searchQuery.value == "" ||
    ContainsTextIgnoringCase(u.name, searchQuery.value) || ContainsTextIgnoringCase(u.username, searchQuery.value)
  }

  const DEFAULT_USER_PAGE := 1
  const DEFAULT_USER_PAGE_SIZE := 100

  /** The users the search clause keeps, in table order. */
  function MatchingUsers(users: seq<User>, searchQuery: Option<string>): (r: seq<User>)
    ensures forall u :: u in r <==> u in users && UserSearch(u, searchQuery)
  {
    Filter(users, (u: User) => UserSearch(u, searchQuery))
  }

  /**
   * `getAllUsers`: the users matching the search, in the filter's order, from
   * offset `(page - 1) * pageSize` (defaults 1 and 100): the window of the sorted
   * matches, itself in that order.
   */
  function GetAllUsers(users: seq<User>, searchQuery: Option<string>, filter: string,
                       page: Option<int>, pageSize: Option<int>): (r: Result<seq<User>>)
    ensures var p := page.GetOr(DEFAULT_USER_PAGE);
            var n := pageSize.GetOr(DEFAULT_USER_PAGE_SIZE);
            && (r.Ok? <==> (p - 1) * n >= 0 && n >= 0)
            && (r.Ok? ==> |r.value| <= n)
    ensures var p := page.GetOr(DEFAULT_USER_PAGE);
            var n := pageSize.GetOr(DEFAULT_USER_PAGE_SIZE);
            r == Fetch(SortBy(MatchingUsers(users, searchQuery), UserOrder(filter)), (p - 1) * n, n)
    ensures r.Ok? ==> forall u :: u in r.value ==> u in users && UserSearch(u, searchQuery)
    ensures r.Ok? ==> SortedBy(r.value, UserOrder(filter))
  {
    var p := page.GetOr(DEFAULT_USER_PAGE);
    var n := pageSize.GetOr(DEFAULT_USER_PAGE_SIZE);
    UserOrderIsOrder(filter);
    SortedPage(MatchingUsers(users, searchQuery), UserOrder(filter), (p - 1) * n, n)
  }

  // ---------------------------------------------------------------- getSavedQuestions

  /** The order `getSavedQuestions` picks: newest, oldest, or most viewed first (also the default). */
  function SavedOrder(filter: string): (Question, Question) -> bool {
    if filter == "most_recent" then (a: Question, b: Question) => a.createdAt >= b.createdAt
    else if filter == "oldest" then (a: Question, b: Question) => a.createdAt <= b.createdAt
    else (a: Question, b: Question) => a.views >= b.views
  }

  /** Saved and, when there is search text, with a title matching it case-insensitively. */
  predicate SavedMatch(q: Question, ids: seq<int>, searchQuery: Option<string>) {
    q.id in ids && (searchQuery.None? || searchQuery.value == "" || ContainsTextIgnoringCase(q.title, searchQuery.value))
  }

  lemma SavedOrderIsOrder(filter: string)
    ensures Total(SavedOrder(filter)) && Transitive(SavedOrder(filter))
  {
  }

  /** The questions the `WHERE` clause keeps: saved by the user and matching the search, in table order. */
  function SavedMatches(questions: seq<Question>, ids: seq<int>, searchQuery: Option<string>): (r: seq<Question>)
    ensures forall q :: q in r <==> q in questions && SavedMatch(q, ids, searchQuery)
  {
    Filter(questions, (q: Question) => SavedMatch(q, ids, searchQuery))
  }

  const DEFAULT_SAVED_PAGE := 1
  const DEFAULT_SAVED_PAGE_SIZE := 15

  /**
   * `getSavedQuestions`: an unknown clerk id is an error; otherwise the window of
   * `pageSize + 1` of the user's saved questions, in the filter's order, from
   * offset `(page - 1) * pageSize` (defaults 1 and 15), untrimmed, with `isNext`
   * exactly when more than `pageSize` came back, that is, when saved questions
   * remain past this page.
   */
  function GetSavedQuestions(users: seq<User>, questions: seq<Question>, clerkId: string, searchQuery: Option<string>,
                             filter: string, page: Option<int>, pageSize: Option<int>): (r: Result<(seq<Question>, bool)>)
    ensures FindByClerkId(users, clerkId).None? ==> r == Err("User not found")
    ensures r.Ok? <==>
              && FindByClerkId(users, clerkId).Some?
              && (page.GetOr(DEFAULT_SAVED_PAGE) - 1) * pageSize.GetOr(DEFAULT_SAVED_PAGE_SIZE) >= 0
              && pageSize.GetOr(DEFAULT_SAVED_PAGE_SIZE) + 1 >= 0
    ensures r.Ok? ==>
              var ids := DecodeSaved(FindByClerkId(users, clerkId).value.savedQuestions);
              var n := pageSize.GetOr(DEFAULT_SAVED_PAGE_SIZE);
              var offset := (page.GetOr(DEFAULT_SAVED_PAGE) - 1) * n;
              var matching := SavedMatches(questions, ids, searchQuery);
              && Fetch(SortBy(matching, SavedOrder(filter)), offset, n + 1) == Ok(r.value.0)
              && SortedBy(r.value.0, SavedOrder(filter))
              && |r.value.0| <= n + 1
              && (forall q :: q in r.value.0 ==> q in questions && SavedMatch(q, ids, searchQuery))
              && (n >= 0 ==> (r.value.1 <==> |matching| > offset + n))
              && (r.value.1 ==> |r.value.0| == n + 1)
  {
    match FindByClerkId(users, clerkId)
    case None => Err("User not found")
    case Some(u) =>
      var p := page.GetOr(DEFAULT_SAVED_PAGE);
      var n := pageSize.GetOr(DEFAULT_SAVED_PAGE_SIZE);
      SavedOrderIsOrder(filter);
      SortedPageExtra(SavedMatches(questions, DecodeSaved(u.savedQuestions), searchQuery), SavedOrder(filter), (p - 1) * n, n)
  }

  // ---------------------------------------------------------------- getUserQuestions / getUserAnswers

  function NewestQuestionFirst(a: Question, b: Question): bool { a.createdAt >= b.createdAt }
  function NewestAnswerFirst(a: Answer, b: Answer): bool { a.createdAt >= b.createdAt }

  /** A user question joined, as written, to the tag whose id equals the question's view count. */
  datatype UserQuestionRow = UserQuestionRow(question: Question, tag: Option<Tag>)

  /** An answer joined to its question, if that exists. */
  datatype UserAnswerRow = UserAnswerRow(answer: Answer, question: Option<Question>)

  lemma NewestFirstIsOrder()
    ensures Total(NewestQuestionFirst) && Transitive(NewestQuestionFirst)
    ensures Total(NewestAnswerFirst) && Transitive(NewestAnswerFirst)
  {
  }

  /** The questions of a list of joined rows, in order. */
  function QuestionsOf(rows: seq<UserQuestionRow>): (r: seq<Question>)
    ensures |r| == |rows| && forall k :: 0 <= k < |rows| ==> r[k] == rows[k].question
  {
    seq(|rows|, k requires 0 <= k < |rows| => rows[k].question)
  }

  /** The answers of a list of joined rows, in order. */
  function AnswersOf(rows: seq<UserAnswerRow>): (r: seq<Answer>)
    ensures |r| == |rows| && forall k :: 0 <= k < |rows| ==> r[k] == rows[k].answer
  {
    seq(|rows|, k requires 0 <= k < |rows| => rows[k].answer)
  }

  /** `LEFT JOIN tags ON tags.id = questions.views`, row by row. */
  function WithViewTags(list: seq<Question>, tags: seq<Tag>): (rows: seq<UserQuestionRow>)
    ensures QuestionsOf(rows) == list
  {
    var rows := seq(|list|, k requires 0 <= k < |list| => UserQuestionRow(list[k], FindFirst(tags, (t: Tag) => t.id == list[k].views)));
    assert QuestionsOf(rows) == list;
    rows
  }

  /** `LEFT JOIN questions ON questions.id = answers.questionId`, row by row. */
  function WithQuestions(list: seq<Answer>, questions: seq<Question>): (rows: seq<UserAnswerRow>)
    ensures AnswersOf(rows) == list
    ensures forall k :: 0 <= k < |rows| && rows[k].question.Some? ==>
              rows[k].question.value in questions && rows[k].question.value.id == list[k].questionId
  {
    var rows := seq(|list|, k requires 0 <= k < |list| =>
                      UserAnswerRow(list[k], FindFirst(questions, (q: Question) => q.id == list[k].questionId)));
    assert AnswersOf(rows) == list;
    rows
  }

  /** `WHERE author_id = userId` on the questions, in table order. */
  function QuestionsBy(questions: seq<Question>, userId: int): (r: seq<Question>)
    ensures forall q :: q in r <==> q in questions && q.authorId == userId
  {
    Filter(questions, (q: Question) => q.authorId == userId)
  }

  /** `WHERE author_id = userId` on the answers, in table order. */
  function AnswersBy(answers: seq<Answer>, userId: int): (r: seq<Answer>)
    ensures forall a :: a in r <==> a in answers && a.authorId == userId
  {
    Filter(answers, (a: Answer) => a.authorId == userId)
  }

  const DEFAULT_USER_STATS_PAGE := 1
  const DEFAULT_USER_STATS_PAGE_SIZE := 10

  /**
   * `getUserQuestions`: the user's question count, and the window of their
   * questions, newest first, from offset `(page - 1) * pageSize` (defaults 1 and
   * 10), with `isNextQuestions = total > offset + returned`.
   */
  function GetUserQuestions(questions: seq<Question>, tags: seq<Tag>, userId: int, page: Option<int>, pageSize: Option<int>)
    : (r: Result<(nat, seq<UserQuestionRow>, bool)>)
    ensures var p := page.GetOr(DEFAULT_USER_STATS_PAGE);
            var n := pageSize.GetOr(DEFAULT_USER_STATS_PAGE_SIZE);
            && (r.Ok? <==> (p - 1) * n >= 0 && n >= 0)
            && (r.Ok? ==> |r.value.1| <= n)
    ensures r.Ok? ==> r.value.0 == |QuestionsBy(questions, userId)|
    ensures r.Ok? ==>
              var p := page.GetOr(DEFAULT_USER_STATS_PAGE);
              var n := pageSize.GetOr(DEFAULT_USER_STATS_PAGE_SIZE);
              Fetch(SortBy(QuestionsBy(questions, userId), NewestQuestionFirst), (p - 1) * n, n) == Ok(QuestionsOf(r.value.1))
    ensures r.Ok? ==> forall row :: row in r.value.1 ==> row.question in questions && row.question.authorId == userId
    ensures r.Ok? ==> forall i, j :: 0 <= i < j < |r.value.1| ==>
              r.value.1[i].question.createdAt >= r.value.1[j].question.createdAt
    ensures r.Ok? ==>
              var p := page.GetOr(DEFAULT_USER_STATS_PAGE);
              var n := pageSize.GetOr(DEFAULT_USER_STATS_PAGE_SIZE);
              (r.value.2 <==> r.value.0 > (p - 1) * n + n)
  {
    var p := page.GetOr(DEFAULT_USER_STATS_PAGE);
    var n := pageSize.GetOr(DEFAULT_USER_STATS_PAGE_SIZE);
    QuestionPage(QuestionsBy(questions, userId), tags, (p - 1) * n, n)
  }

  /** The count of a user's questions, and their window from `offset`, newest first, with their joined tags. */
  function QuestionPage(mine: seq<Question>, tags: seq<Tag>, offset: int, n: int): (r: Result<(nat, seq<UserQuestionRow>, bool)>)
    ensures r.Ok? <==> offset >= 0 && n >= 0
    ensures r.Ok? ==> r.value.0 == |mine| && |r.value.1| <= n && (r.value.2 <==> |mine| > offset + n)
    ensures r.Ok? ==> Fetch(SortBy(mine, NewestQuestionFirst), offset, n) == Ok(QuestionsOf(r.value.1))
    ensures r.Ok? ==> forall row :: row in r.value.1 ==> row.question in mine
    ensures r.Ok? ==> forall i, j :: 0 <= i < j < |r.value.1| ==>
              r.value.1[i].question.createdAt >= r.value.1[j].question.createdAt
  {
    NewestFirstIsOrder();
    match SortedPageAfter(mine, NewestQuestionFirst, offset, n)
    case Err(e) => Err(e)
    case Ok((list, isNext)) =>
      var rows := WithViewTags(list, tags);
      assert forall row :: row in rows ==> row.question in mine by {
        forall row | row in rows ensures row.question in mine {
          var k :| 0 <= k < |rows| && rows[k] == row;
          assert QuestionsOf(rows)[k] == list[k];
        }
      }
      Ok((|mine|, rows, isNext))
  }

  /**
   * `getUserAnswers`: the user's answer count, and the window of their answers,
   * newest first, each with its question, with `isNextAnswer = total > offset + returned`.
   */
  function GetUserAnswers(answers: seq<Answer>, questions: seq<Question>, userId: int, page: Option<int>, pageSize: Option<int>)
    : (r: Result<(nat, seq<UserAnswerRow>, bool)>)
    ensures var p := page.GetOr(DEFAULT_USER_STATS_PAGE);
            var n := pageSize.GetOr(DEFAULT_USER_STATS_PAGE_SIZE);
            && (r.Ok? <==> (p - 1) * n >= 0 && n >= 0)
            && (r.Ok? ==> |r.value.1| <= n)
    ensures r.Ok? ==> r.value.0 == |AnswersBy(answers, userId)|
    ensures r.Ok? ==>
              var p := page.GetOr(DEFAULT_USER_STATS_PAGE);
              var n := pageSize.GetOr(DEFAULT_USER_STATS_PAGE_SIZE);
              Fetch(SortBy(AnswersBy(answers, userId), NewestAnswerFirst), (p - 1) * n, n) == Ok(AnswersOf(r.value.1))
    ensures r.Ok? ==> forall row :: row in r.value.1 ==>
              row.answer in answers && row.answer.authorId == userId &&
              (row.question.Some? ==> row.question.value in questions && row.question.value.id == row.answer.questionId)
    ensures r.Ok? ==> forall i, j :: 0 <= i < j < |r.value.1| ==>
              r.value.1[i].answer.createdAt >= r.value.1[j].answer.createdAt
    ensures r.Ok? ==>
              var p := page.GetOr(DEFAULT_USER_STATS_PAGE);
              var n := pageSize.GetOr(DEFAULT_USER_STATS_PAGE_SIZE);
              (r.value.2 <==> r.value.0 > (p - 1) * n + n)
  {
    var p := page.GetOr(DEFAULT_USER_STATS_PAGE);
    var n := pageSize.GetOr(DEFAULT_USER_STATS_PAGE_SIZE);
    AnswerPage(AnswersBy(answers, userId), questions, (p - 1) * n, n)
  }

  /** The count of a user's answers, and their window from `offset`, newest first, each with its question. */
  function AnswerPage(mine: seq<Answer>, questions: seq<Question>, offset: int, n: int): (r: Result<(nat, seq<UserAnswerRow>, bool)>)
    ensures r.Ok? <==> offset >= 0 && n >= 0
    ensures r.Ok? ==> r.value.0 == |mine| && |r.value.1| <= n && (r.value.2 <==> |mine| > offset + n)
    ensures r.Ok? ==> Fetch(SortBy(mine, NewestAnswerFirst), offset, n) == Ok(AnswersOf(r.value.1))
    ensures r.Ok? ==> forall row :: row in r.value.1 ==>
              row.answer in mine &&
              (row.question.Some? ==> row.question.value in questions && row.question.value.id == row.answer.questionId)
    ensures r.Ok? ==> forall i, j :: 0 <= i < j < |r.value.1| ==>
              r.value.1[i].answer.createdAt >= r.value.1[j].answer.createdAt
  {
    NewestFirstIsOrder();
    match SortedPageAfter(mine, NewestAnswerFirst, offset, n)
    case Err(e) => Err(e)
    case Ok((list, isNext)) =>
      var rows := WithQuestions(list, questions);
      assert forall row :: row in rows ==> row.answer in mine by {
        forall row | row in rows ensures row.answer in mine {
          var k :| 0 <= k < |rows| && rows[k] == row;
          assert AnswersOf(rows)[k] == list[k];
        }
      }
      Ok((|mine|, rows, isNext))
  }
}
