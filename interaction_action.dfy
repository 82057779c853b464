/**
 * `viewQuestion`: every view of an existing question raises its view counter,
 * and a signed-in viewer's first view is logged as one "view" interaction.
 */
module InteractionActions {
  import opened Wrappers
  import opened Seqs
  import opened Schema

  datatype ViewResult =
    | QuestionNotFound  // `{ success: false, message: "Question not found" }`
    | AlreadyViewed     // the early `return` when the view row exists (the result is `undefined`)
    | ViewRecorded      // `{ success: true, message: "View recorded successfully" }`

  /** The part of the store `viewQuestion` reads and writes. */
  datatype ViewState = ViewState(questions: seq<Question>, interactions: seq<Interaction>, nextId: int)

  predicate IsViewRow(i: Interaction, userId: int, questionId: int) {
    i.userId == userId && i.action == View && i.questionId == Some(questionId)
  }

  /** The number of "view" rows for one viewer and question. */
  function ViewRowCount(interactions: seq<Interaction>, userId: int, questionId: int): nat {
    |Filter(interactions, (i: Interaction) => IsViewRow(i, userId, questionId))|
  }

  function FindQuestion(questions: seq<Question>, questionId: int): Option<Question> {
    FindFirst(questions, (q: Question) => q.id == questionId)
  }

  /** `SET views = views WHERE id = questionId`: the new view counter on every row with that id. */
  function WithViews(questions: seq<Question>, questionId: int, views: int): (r: seq<Question>)
    ensures |r| == |questions|
    ensures forall k :: 0 <= k < |r| ==>
              r[k] == if questions[k].id == questionId then questions[k].(views := views) else questions[k]
  {
    MapWhere(questions, (x: Question) => x.id == questionId, (x: Question) => x.(views := views))
  }

  /** The "view" row logged for a viewer's first view of a question. */
  function ViewRow(id: int, userId: int, questionId: int): (i: Interaction)
    ensures i.id == id && IsViewRow(i, userId, questionId)
  {
    Interaction(id, userId, View, None, Some(questionId), None, [])
  }

  /** The viewer already has a "view" row for the question. */
  predicate HasViewRow(interactions: seq<Interaction>, userId: int, questionId: int) {
    exists i :: i in interactions && IsViewRow(i, userId, questionId)
  }

  /**
   * The logging half of a view of an existing question: nothing without a
   * viewer or when the viewer's row exists, otherwise one "view" row under the
   * next id. Yields the interactions, the next id and the result.
   */
  function LogView(interactions: seq<Interaction>, nextId: int, questionId: int, userId: Option<int>)
    : (seq<Interaction>, int, ViewResult)
  {
    if userId.None? then (interactions, nextId, ViewRecorded)
    else if HasViewRow(interactions, userId.value, questionId) then (interactions, nextId, AlreadyViewed)
    else (interactions + [ViewRow(nextId, userId.value, questionId)], nextId + 1, ViewRecorded)
  }

  /**
   * One `viewQuestion` call. `userId` is `None` for a missing or empty user id,
   * the values JavaScript treats as false.
   */
  function ViewStep(s: ViewState, questionId: int, userId: Option<int>): (ViewState, ViewResult)
  {
    match FindQuestion(s.questions, questionId)
    case None => (s, QuestionNotFound)
    case Some(q) =>
      var (interactions, nextId, r) := LogView(s.interactions, s.nextId, questionId, userId);
      (ViewState(WithViews(s.questions, questionId, q.views + 1), interactions, nextId), r)
  }

  /** A view of an existing question is its counter update followed by its logging half. */
  lemma ViewStepFound(s: ViewState, questionId: int, userId: Option<int>, q: Question)
    requires FindQuestion(s.questions, questionId) == Some(q)
    ensures ViewStep(s, questionId, userId).0.questions == WithViews(s.questions, questionId, q.views + 1)
    ensures var (t, r) := ViewStep(s, questionId, userId);
            (t.interactions, t.nextId, r) == LogView(s.interactions, s.nextId, questionId, userId)
    ensures ViewStep(s, questionId, userId).1 != QuestionNotFound
  {
  }

  /** Updating the found rows keeps the first match first, with the update applied. */
  lemma FindAfterUpdate(qs: seq<Question>, after: seq<Question>, questionId: int, views: int, q: Question)
    requires FindQuestion(qs, questionId) == Some(q)
    requires after == WithViews(qs, questionId, views)
    ensures FindQuestion(after, questionId) == Some(q.(views := views))
  {
    var i :| 0 <= i < |qs| && qs[i] == q && qs[i].id == questionId && forall j :: 0 <= j < i ==> qs[j].id != questionId;
    assert after[i] == q.(views := views);
    FindFirstAt(after, (x: Question) => x.id == questionId, i);
  }

  /** An unknown question is reported and changes nothing. */
  lemma ViewStepUnknown(s: ViewState, questionId: int, userId: Option<int>)
    requires FindQuestion(s.questions, questionId).None?
    ensures ViewStep(s, questionId, userId) == (s, QuestionNotFound)
  {
  }

  /**
   * A view of an existing question raises its view counter by exactly one,
   * whoever views it, and changes no other question field.
   */
  lemma ViewStepQuestions(s: ViewState, questionId: int, userId: Option<int>, q: Question)
    requires FindQuestion(s.questions, questionId) == Some(q)
    ensures var t := ViewStep(s, questionId, userId).0;
      && ViewStep(s, questionId, userId).1 != QuestionNotFound
      && FindQuestion(t.questions, questionId) == Some(q.(views := q.views + 1))
      && |t.questions| == |s.questions|
      && (forall k :: 0 <= k < |s.questions| ==> t.questions[k] == s.questions[k].(views := t.questions[k].views))
  {
    ViewStepFound(s, questionId, userId, q);
    FindAfterUpdate(s.questions, ViewStep(s, questionId, userId).0.questions, questionId, q.views + 1, q);
  }

  /**
   * The existing interactions stay as they are, no row is added without a viewer,
   * the viewer ends up with exactly one "view" row for the question if they had
   * at most one before, and every other (viewer, question) pair keeps its count.
   */
  lemma ViewStepInteractions(s: ViewState, questionId: int, userId: Option<int>)
    ensures var t := ViewStep(s, questionId, userId).0;
      && t.interactions[..|s.interactions|] == s.interactions
      && (userId.None? ==> t.interactions == s.interactions)
      && (FindQuestion(s.questions, questionId).Some? && userId.Some? &&
          ViewRowCount(s.interactions, userId.value, questionId) <= 1 ==>
            ViewRowCount(t.interactions, userId.value, questionId) == 1)
      && (forall u, x :: (userId != Some(u) || x != questionId) ==>
            ViewRowCount(t.interactions, u, x) == ViewRowCount(s.interactions, u, x))
  {
    var t := ViewStep(s, questionId, userId).0;
    if FindQuestion(s.questions, questionId).Some? && userId.Some? {
      var u := userId.value;
      if HasViewRow(s.interactions, u, questionId) {
        var i :| i in s.interactions && IsViewRow(i, u, questionId);
        assert i in Filter(s.interactions, (i: Interaction) => IsViewRow(i, u, questionId));
      } else {
        var row := ViewRow(s.nextId, u, questionId);
        assert t.interactions == s.interactions + [row];
        forall u', x ensures ViewRowCount(t.interactions, u', x) ==
                             ViewRowCount(s.interactions, u', x) + (if u' == u && x == questionId then 1 else 0)
        {
          FilterConcat(s.interactions, [row], (i: Interaction) => IsViewRow(i, u', x));
        }
        FilterNone(s.interactions, (i: Interaction) => IsViewRow(i, u, questionId));
      }
    }
  }

  /** `n` calls by the same viewer on the same question. */
  function ViewRepeatedly(s: ViewState, questionId: int, userId: Option<int>, n: nat): ViewState
    decreases n
  {
    if n == 0 then s else ViewRepeatedly(ViewStep(s, questionId, userId).0, questionId, userId, n - 1)
  }

  /**
   * Repeated views: after `n >= 1` calls by one viewer on an existing question,
   * the view counter has risen by `n` while the viewer has exactly one "view" row
   * for it (when they had at most one to begin with).
   */
  lemma {:induction false} RepeatedViews(s: ViewState, questionId: int, userId: int, n: nat)
    requires FindQuestion(s.questions, questionId).Some?
    requires ViewRowCount(s.interactions, userId, questionId) <= 1
    requires n >= 1
    decreases n
    ensures var t := ViewRepeatedly(s, questionId, Some(userId), n);
            && FindQuestion(t.questions, questionId).Some?
            && FindQuestion(t.questions, questionId).value.views == FindQuestion(s.questions, questionId).value.views + n
            && ViewRowCount(t.interactions, userId, questionId) == 1
  {
    ViewStepQuestions(s, questionId, Some(userId), FindQuestion(s.questions, questionId).value);
    ViewStepInteractions(s, questionId, Some(userId));
    var s1 := ViewStep(s, questionId, Some(userId)).0;
    if n > 1 {
      RepeatedViews(s1, questionId, userId, n - 1);
    }
  }

  /** `UPDATE questions SET views = views + 1 WHERE id = questionId`, from the views already read. */
  method SetViews(db: Store, questionId: int, views: int)
    requires db.Valid()
    modifies db`questions
    ensures db.Valid()
    ensures db.questions == WithViews(old(db.questions), questionId, views)
  {
    db.UpdateQuestions(WithViews(db.questions, questionId, views));
  }

  /** The existing "view" row of a viewer for a question, if any. */
  function FindViewRow(interactions: seq<Interaction>, userId: int, questionId: int): (r: Option<Interaction>)
    ensures r.Some? <==> HasViewRow(interactions, userId, questionId)
  {
    var r := FindFirst(interactions, (i: Interaction) => IsViewRow(i, userId, questionId));
    assert r.Some? ==> r.value in interactions && IsViewRow(r.value, userId, questionId);
    r
  }

  /** The logging half of `viewQuestion` on the store. */
  method RecordView(db: Store, questionId: int, userId: Option<int>) returns (r: ViewResult)
    requires db.Valid()
    modifies db`interactions, db`nextId
    ensures db.Valid()
    ensures (db.interactions, db.nextId, r) == LogView(old(db.interactions), old(db.nextId), questionId, userId)
  {
    if userId.None? {
      return ViewRecorded;
    }
    var existing := FindViewRow(db.interactions, userId.value, questionId);
    if existing.Some? {
      return AlreadyViewed;
    }
    var _ := db.LogInteraction(userId.value, View, None, Some(questionId), None, []);
    r := ViewRecorded;
  }

  /** `viewQuestion` on the store once the question is found: the counter update, then the logging half. */
  method ViewFound(db: Store, questionId: int, userId: Option<int>) returns (r: ViewResult)
    requires db.Valid() && FindQuestion(db.questions, questionId).Some?
    modifies db`questions, db`interactions, db`nextId
    ensures db.Valid()
    ensures db.questions == WithViews(old(db.questions), questionId, FindQuestion(old(db.questions), questionId).value.views + 1)
    ensures (db.interactions, db.nextId, r) == LogView(old(db.interactions), old(db.nextId), questionId, userId)
  {
    SetViews(db, questionId, FindQuestion(db.questions, questionId).value.views + 1);
    r := RecordView(db, questionId, userId);
  }

  /** `viewQuestion` on the store. */
  method ViewQuestion(db: Store, questionId: int, userId: Option<int>) returns (r: ViewResult)
    requires db.Valid()
    modifies db`questions, db`interactions, db`nextId
    ensures db.Valid()
    ensures match FindQuestion(old(db.questions), questionId)
            case None => r == QuestionNotFound && db.questions == old(db.questions)
                         && db.interactions == old(db.interactions) && db.nextId == old(db.nextId)
            case Some(q) =>
              && db.questions == WithViews(old(db.questions), questionId, q.views + 1)
              && (db.interactions, db.nextId, r) == LogView(old(db.interactions), old(db.nextId), questionId, userId)
  {
    if FindQuestion(db.questions, questionId).None? {
      return QuestionNotFound;
    }
    r := ViewFound(db, questionId, userId);
  }
}
