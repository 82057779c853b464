/**
 * Answer actions: creating and deleting answers, paging them, and the vote
 * transitions on an answer's upvoter and downvoter arrays with the reputation
 * changes they bring.
 */
module AnswerActions {
  import opened Wrappers
  import opened Seqs
  import opened Schema
  import opened Paging
  import opened Ordering

  /** An answer's two voter arrays. */
  datatype Votes = Votes(upvotes: seq<int>, downvotes: seq<int>)

  /** Where one user stands on one answer: membership of the two arrays, upvote first. */
  datatype VoteState = NotVoted | Upvoted | Downvoted

  function StateOf(v: Votes, userId: int): VoteState {
    if userId in v.upvotes then Upvoted
    else if userId in v.downvotes then Downvoted
    else NotVoted
  }

  /** The caller's `hasUpvoted` and `hasDownvoted` flags are the user's actual membership. */
  predicate FlagsMatch(v: Votes, userId: int, hasUpvoted: bool, hasDownvoted: bool) {
    hasUpvoted == (userId in v.upvotes) && hasDownvoted == (userId in v.downvotes)
  }

  /** Each user occurs at most once across both arrays: no double vote, no user on both sides. */
  ghost predicate WellFormed(v: Votes) {
    forall x :: Count(v.upvotes, x) + Count(v.downvotes, x) <= 1
  }

  /** The array updates of `upvoteAnswer`. */
  function UpvoteVotes(v: Votes, userId: int, hasUpvoted: bool, hasDownvoted: bool): Votes {
    if hasUpvoted then Votes(RemoveAll(v.upvotes, userId), v.downvotes)
    else if hasDownvoted then Votes(v.upvotes + [userId], RemoveAll(v.downvotes, userId))
    else Votes(v.upvotes + [userId], v.downvotes)
  }

  /** The array updates of `downvoteAnswer`. */
  function DownvoteVotes(v: Votes, userId: int, hasUpvoted: bool, hasDownvoted: bool): Votes {
    if hasDownvoted then Votes(v.upvotes, RemoveAll(v.downvotes, userId))
    else if hasUpvoted then Votes(RemoveAll(v.upvotes, userId), v.downvotes + [userId])
    else Votes(v.upvotes, v.downvotes + [userId])
  }

  lemma CountAppendOne(s: seq<int>, u: int, x: int)
    ensures Count(s + [u], x) == Count(s, x) + (if x == u then 1 else 0)
  {
    CountAppend(s, [u], x);
    assert Count([u], x) == (if u == x then 1 else 0) + Count([u][1..], x);
  }

  /**
   * What an upvote does to the arrays, whatever the flags: with `hasUpvoted`
   * every occurrence of the voter leaves the upvotes and the downvotes stay;
   * otherwise one occurrence is appended to the upvotes, and with `hasDownvoted`
   * every occurrence leaves the downvotes. No other voter is touched.
   */
  lemma UpvoteCounts(v: Votes, userId: int, hasUpvoted: bool, hasDownvoted: bool, x: int)
    ensures var r := UpvoteVotes(v, userId, hasUpvoted, hasDownvoted);
      && Count(r.upvotes, x) == (if x != userId then Count(v.upvotes, x)
                                 else if hasUpvoted then 0 else Count(v.upvotes, x) + 1)
      && Count(r.downvotes, x) == (if x == userId && !hasUpvoted && hasDownvoted then 0
                                   else Count(v.downvotes, x))
      && (hasUpvoted ==> r.downvotes == v.downvotes)
      && (!hasUpvoted ==> r.upvotes[..|v.upvotes|] == v.upvotes && r.upvotes[|v.upvotes|] == userId)
  {
    RemoveAllCount(v.upvotes, userId, x);
    RemoveAllCount(v.downvotes, userId, x);
    CountAppendOne(v.upvotes, userId, x);
  }

  /** The mirror image of `UpvoteCounts`, with `hasDownvoted` taking priority. */
  lemma DownvoteCounts(v: Votes, userId: int, hasUpvoted: bool, hasDownvoted: bool, x: int)
    ensures var r := DownvoteVotes(v, userId, hasUpvoted, hasDownvoted);
      && Count(r.downvotes, x) == (if x != userId then Count(v.downvotes, x)
                                   else if hasDownvoted then 0 else Count(v.downvotes, x) + 1)
      && Count(r.upvotes, x) == (if x == userId && !hasDownvoted && hasUpvoted then 0
                                 else Count(v.upvotes, x))
      && (hasDownvoted ==> r.upvotes == v.upvotes)
      && (!hasDownvoted ==> r.downvotes[..|v.downvotes|] == v.downvotes && r.downvotes[|v.downvotes|] == userId)
  {
    RemoveAllCount(v.upvotes, userId, x);
    RemoveAllCount(v.downvotes, userId, x);
    CountAppendOne(v.downvotes, userId, x);
  }

  /** One voter's place after an upvote with matching flags: at most one entry, and the new state. */
  lemma UpvoteVoter(v: Votes, userId: int, hasUpvoted: bool, hasDownvoted: bool, x: int)
    requires WellFormed(v) && FlagsMatch(v, userId, hasUpvoted, hasDownvoted)
    ensures var r := UpvoteVotes(v, userId, hasUpvoted, hasDownvoted);
      && Count(r.upvotes, x) + Count(r.downvotes, x) <= 1
      && StateOf(r, x) == if x != userId then StateOf(v, x)
                          else if StateOf(v, userId) == Upvoted then NotVoted else Upvoted
  {
    UpvoteCounts(v, userId, hasUpvoted, hasDownvoted, x);
    assert Count(v.upvotes, x) + Count(v.downvotes, x) <= 1;
  }

  /**
   * With flags that match membership, an upvote is the state machine
   * NotVoted -> Upvoted, Upvoted -> NotVoted, Downvoted -> Upvoted, and the
   * arrays stay well formed: nobody ends up on both sides or twice on one.
   */
  lemma UpvoteTransition(v: Votes, userId: int, hasUpvoted: bool, hasDownvoted: bool)
    requires WellFormed(v) && FlagsMatch(v, userId, hasUpvoted, hasDownvoted)
    ensures var r := UpvoteVotes(v, userId, hasUpvoted, hasDownvoted);
      && WellFormed(r)
      && StateOf(r, userId) == (if StateOf(v, userId) == Upvoted then NotVoted else Upvoted)
      && forall x :: x != userId ==> StateOf(r, x) == StateOf(v, x)
  {
    forall x ensures Count(UpvoteVotes(v, userId, hasUpvoted, hasDownvoted).upvotes, x)
                     + Count(UpvoteVotes(v, userId, hasUpvoted, hasDownvoted).downvotes, x) <= 1
      && (x != userId ==> StateOf(UpvoteVotes(v, userId, hasUpvoted, hasDownvoted), x) == StateOf(v, x)) {
      UpvoteVoter(v, userId, hasUpvoted, hasDownvoted, x);
    }
    UpvoteVoter(v, userId, hasUpvoted, hasDownvoted, userId);
  }

  /** One voter's place after a downvote with matching flags: at most one entry, and the new state. */
  lemma DownvoteVoter(v: Votes, userId: int, hasUpvoted: bool, hasDownvoted: bool, x: int)
    requires WellFormed(v) && FlagsMatch(v, userId, hasUpvoted, hasDownvoted)
    ensures var r := DownvoteVotes(v, userId, hasUpvoted, hasDownvoted);
      && Count(r.upvotes, x) + Count(r.downvotes, x) <= 1
      && StateOf(r, x) == if x != userId then StateOf(v, x)
                          else if StateOf(v, userId) == Downvoted then NotVoted else Downvoted
  {
    DownvoteCounts(v, userId, hasUpvoted, hasDownvoted, x);
    assert Count(v.upvotes, x) + Count(v.downvotes, x) <= 1;
  }

  /** The mirror image of `UpvoteTransition`. */
  lemma DownvoteTransition(v: Votes, userId: int, hasUpvoted: bool, hasDownvoted: bool)
    requires WellFormed(v) && FlagsMatch(v, userId, hasUpvoted, hasDownvoted)
    ensures var r := DownvoteVotes(v, userId, hasUpvoted, hasDownvoted);
      && WellFormed(r)
      && StateOf(r, userId) == (if StateOf(v, userId) == Downvoted then NotVoted else Downvoted)
      && forall x :: x != userId ==> StateOf(r, x) == StateOf(v, x)
  {
    forall x ensures Count(DownvoteVotes(v, userId, hasUpvoted, hasDownvoted).upvotes, x)
                     + Count(DownvoteVotes(v, userId, hasUpvoted, hasDownvoted).downvotes, x) <= 1
      && (x != userId ==> StateOf(DownvoteVotes(v, userId, hasUpvoted, hasDownvoted), x) == StateOf(v, x)) {
      DownvoteVoter(v, userId, hasUpvoted, hasDownvoted, x);
    }
    DownvoteVoter(v, userId, hasUpvoted, hasDownvoted, userId);
  }

  /** One vote as the page casts it: flags read from the arrays at the time of the call. */
  datatype Ballot = Ballot(voter: int, up: bool)

  function Cast(v: Votes, b: Ballot): Votes {
    var hasUp := b.voter in v.upvotes;
    var hasDown := b.voter in v.downvotes;
    if b.up then UpvoteVotes(v, b.voter, hasUp, hasDown) else DownvoteVotes(v, b.voter, hasUp, hasDown)
  }

  function CastAll(v: Votes, bs: seq<Ballot>): Votes
    decreases |bs|
  {
    if |bs| == 0 then v else CastAll(Cast(v, bs[0]), bs[1..])
  }

  /**
   * Mutual exclusion: after any sequence of votes whose flags match membership,
   * no user is in both arrays (nor twice in one).
   */
  lemma {:induction false} CastAllWellFormed(v: Votes, bs: seq<Ballot>)
    requires WellFormed(v)
    ensures WellFormed(CastAll(v, bs))
    ensures forall x :: !(x in CastAll(v, bs).upvotes && x in CastAll(v, bs).downvotes)
    decreases |bs|
  {
    if |bs| > 0 {
      var b := bs[0];
      if b.up {
        UpvoteTransition(v, b.voter, b.voter in v.upvotes, b.voter in v.downvotes);
      } else {
        DownvoteTransition(v, b.voter, b.voter in v.upvotes, b.voter in v.downvotes);
      }
      CastAllWellFormed(Cast(v, b), bs[1..]);
    } else {
      forall x ensures !(x in v.upvotes && x in v.downvotes) {
        assert Count(v.upvotes, x) + Count(v.downvotes, x) <= 1;
      }
    }
  }

  /**
   * Two upvotes in a row with up-to-date flags undo each other: from no vote they
   * restore both arrays exactly; from an upvote they restore who is in each array.
   */
  lemma UpvoteTwice(v: Votes, userId: int)
    requires WellFormed(v)
    ensures var once := Cast(v, Ballot(userId, true));
            var twice := Cast(once, Ballot(userId, true));
            && (StateOf(v, userId) == NotVoted ==> twice == v)
            && (StateOf(v, userId) == Upvoted ==>
                  twice.downvotes == v.downvotes && forall x :: x in twice.upvotes <==> x in v.upvotes)
  {
    var once := Cast(v, Ballot(userId, true));
    if StateOf(v, userId) == NotVoted {
      assert once == Votes(v.upvotes + [userId], v.downvotes);
      RemoveAllAppended(v.upvotes, userId);
      RemoveAllAbsent(v.upvotes, userId);
    } else if StateOf(v, userId) == Upvoted {
      assert Count(v.upvotes, userId) + Count(v.downvotes, userId) <= 1;
      assert userId !in v.downvotes;
    }
  }

  /** The mirror image of `UpvoteTwice`. */
  lemma DownvoteTwice(v: Votes, userId: int)
    requires WellFormed(v)
    ensures var once := Cast(v, Ballot(userId, false));
            var twice := Cast(once, Ballot(userId, false));
            && (StateOf(v, userId) == NotVoted ==> twice == v)
            && (StateOf(v, userId) == Downvoted ==>
                  twice.upvotes == v.upvotes && forall x :: x in twice.downvotes <==> x in v.downvotes)
  {
    var once := Cast(v, Ballot(userId, false));
    if StateOf(v, userId) == NotVoted {
      assert once == Votes(v.upvotes, v.downvotes + [userId]);
      RemoveAllAppended(v.downvotes, userId);
      RemoveAllAbsent(v.downvotes, userId);
    } else if StateOf(v, userId) == Downvoted {
      assert Count(v.upvotes, userId) + Count(v.downvotes, userId) <= 1;
      assert userId !in v.upvotes;
    }
  }

  /** Reputation changes of `upvoteAnswer`: voter -2 / +2, author -10 / +10, by `hasUpvoted`. */
  function UpvoteVoterDelta(hasUpvoted: bool): int { if hasUpvoted then -2 else 2 }
  function UpvoteAuthorDelta(hasUpvoted: bool): int { if hasUpvoted then -10 else 10 }

  /**
   * Reputation changes of `downvoteAnswer`: voter -2 / +2 and author -10 / +10 by
   * `hasDownvoted`, so a downvote that is not an undo RAISES the author's reputation.
   */
  function DownvoteVoterDelta(hasDownvoted: bool): int { if hasDownvoted then -2 else 2 }
  function DownvoteAuthorDelta(hasDownvoted: bool): int { if hasDownvoted then -10 else 10 }

  /** The users table after the voter's and then the author's reputation update. */
  function VoteReputation(users: seq<User>, voter: int, author: int, voterDelta: int, authorDelta: int): seq<User>
  {
    AddReputation(AddReputation(users, voter, voterDelta), author, authorDelta)
  }

  /**
   * Reputation round trip: an upvote followed by its undo leaves every user's
   * reputation where it was, and so does a downvote followed by its undo, even
   * when the voter is the author.
   */
  lemma VoteUndoRestoresReputation(users: seq<User>, voter: int, author: int)
    ensures VoteReputation(VoteReputation(users, voter, author, UpvoteVoterDelta(false), UpvoteAuthorDelta(false)),
                           voter, author, UpvoteVoterDelta(true), UpvoteAuthorDelta(true)) == users
    ensures VoteReputation(VoteReputation(users, voter, author, DownvoteVoterDelta(false), DownvoteAuthorDelta(false)),
                           voter, author, DownvoteVoterDelta(true), DownvoteAuthorDelta(true)) == users
  {
    var up := VoteReputation(VoteReputation(users, voter, author, 2, 10), voter, author, -2, -10);
    assert |up| == |users|;
    forall i | 0 <= i < |users| ensures up[i] == users[i] {
    }
  }

  /** The voter arrays of an answer row. */
  function VotesOf(a: Answer): Votes { Votes(a.upvotes, a.downvotes) }

  function WithVotes(a: Answer, v: Votes): Answer { a.(upvotes := v.upvotes, downvotes := v.downvotes) }

  /** `SELECT ... FROM answers WHERE id = answerId`, first row. */
  function FindAnswer(answers: seq<Answer>, answerId: int): Option<Answer> {
    FindFirst(answers, (a: Answer) => a.id == answerId)
  }

  /** The answers table after the upvote's array update on the rows with id `answerId`. */
  function UpvotedRows(answers: seq<Answer>, answerId: int, userId: int, hasUpvoted: bool, hasDownvoted: bool)
    : (r: seq<Answer>)
    ensures |r| == |answers|
    ensures forall k :: 0 <= k < |r| ==>
              r[k] == if answers[k].id == answerId
                      then WithVotes(answers[k], UpvoteVotes(VotesOf(answers[k]), userId, hasUpvoted, hasDownvoted))
                      else answers[k]
  {
    MapWhere(answers, (a: Answer) => a.id == answerId,
             (a: Answer) => WithVotes(a, UpvoteVotes(VotesOf(a), userId, hasUpvoted, hasDownvoted)))
  }

  /** The answers table after the downvote's array update on the rows with id `answerId`. */
  function DownvotedRows(answers: seq<Answer>, answerId: int, userId: int, hasUpvoted: bool, hasDownvoted: bool)
    : (r: seq<Answer>)
    ensures |r| == |answers|
    ensures forall k :: 0 <= k < |r| ==>
              r[k] == if answers[k].id == answerId
                      then WithVotes(answers[k], DownvoteVotes(VotesOf(answers[k]), userId, hasUpvoted, hasDownvoted))
                      else answers[k]
  {
    MapWhere(answers, (a: Answer) => a.id == answerId,
             (a: Answer) => WithVotes(a, DownvoteVotes(VotesOf(a), userId, hasUpvoted, hasDownvoted)))
  }

  /**
   * `upvoteAnswer`: the array update on the answer row, the voter's reputation
   * update, then a read of the answer for its author. With no such answer the
   * arrays and the author are untouched, but the voter's reputation has already
   * changed when the missing row makes the action throw. Only the answers and
   * users tables change.
   */
  method UpvoteAnswer(db: Store, answerId: int, userId: int, hasUpvoted: bool, hasDownvoted: bool)
    returns (r: Outcome)
    requires db.Valid()
    modifies db`answers, db`users
    ensures db.Valid()
    ensures db.answers == UpvotedRows(old(db.answers), answerId, userId, hasUpvoted, hasDownvoted)
    ensures match FindAnswer(old(db.answers), answerId)
            case None => r.Fail? && db.users == AddReputation(old(db.users), userId, UpvoteVoterDelta(hasUpvoted))
            case Some(a) => r.Pass? && db.users == VoteReputation(old(db.users), userId, a.authorId,
                                                  UpvoteVoterDelta(hasUpvoted), UpvoteAuthorDelta(hasUpvoted))
  {
    var found := FindAnswer(db.answers, answerId);
    db.UpdateAnswers(UpvotedRows(db.answers, answerId, userId, hasUpvoted, hasDownvoted));
    db.AddReputationOf(userId, UpvoteVoterDelta(hasUpvoted));
    if found.None? {
      return Fail("Cannot read properties of undefined (reading 'authorId')");
    }
    db.AddReputationOf(found.value.authorId, UpvoteAuthorDelta(hasUpvoted));
    r := Pass;
  }

  /** `downvoteAnswer`: as `UpvoteAnswer`, with the downvote array update and deltas. */
  method DownvoteAnswer(db: Store, answerId: int, userId: int, hasUpvoted: bool, hasDownvoted: bool)
    returns (r: Outcome)
    requires db.Valid()
    modifies db`answers, db`users
    ensures db.Valid()
    ensures db.answers == DownvotedRows(old(db.answers), answerId, userId, hasUpvoted, hasDownvoted)
    ensures match FindAnswer(old(db.answers), answerId)
            case None => r.Fail? && db.users == AddReputation(old(db.users), userId, DownvoteVoterDelta(hasDownvoted))
            case Some(a) => r.Pass? && db.users == VoteReputation(old(db.users), userId, a.authorId,
                                                  DownvoteVoterDelta(hasDownvoted), DownvoteAuthorDelta(hasDownvoted))
  {
    var found := FindAnswer(db.answers, answerId);
    db.UpdateAnswers(DownvotedRows(db.answers, answerId, userId, hasUpvoted, hasDownvoted));
    db.AddReputationOf(userId, DownvoteVoterDelta(hasDownvoted));
    if found.None? {
      return Fail("Cannot read properties of undefined (reading 'authorId')");
    }
    db.AddReputationOf(found.value.authorId, DownvoteAuthorDelta(hasDownvoted));
    r := Pass;
  }

  /** `answers = array_append(answers, answerId) WHERE id = questionId`. */
  function WithAnswerLinked(questions: seq<Question>, questionId: int, answerId: int): (r: seq<Question>)
    ensures |r| == |questions|
    ensures forall k :: 0 <= k < |r| ==>
              r[k] == if questions[k].id == questionId then questions[k].(answers := questions[k].answers + [answerId])
                      else questions[k]
  {
    MapWhere(questions, (q: Question) => q.id == questionId, (q: Question) => q.(answers := q.answers + [answerId]))
  }

  /** `answers = array_remove(answers, answerId) WHERE id = questionId`. */
  function WithAnswerUnlinked(questions: seq<Question>, questionId: int, answerId: int): (r: seq<Question>)
    ensures |r| == |questions|
    ensures forall k :: 0 <= k < |r| ==>
              r[k] == if questions[k].id == questionId then questions[k].(answers := RemoveAll(questions[k].answers, answerId))
                      else questions[k]
  {
    MapWhere(questions, (q: Question) => q.id == questionId, (q: Question) => q.(answers := RemoveAll(q.answers, answerId)))
  }

  /** `DELETE FROM answers WHERE id = answerId`. */
  function AnswersWithout(answers: seq<Answer>, answerId: int): (r: seq<Answer>)
    ensures forall a :: a in r <==> a in answers && a.id != answerId
  {
    Filter(answers, (x: Answer) => x.id != answerId)
  }

  /** `DELETE FROM interactions WHERE answer_id = answerId`. */
  function InteractionsWithoutAnswer(interactions: seq<Interaction>, answerId: int): (r: seq<Interaction>)
    ensures forall i :: i in r <==> i in interactions && i.answerId != Some(answerId)
  {
    Filter(interactions, (i: Interaction) => i.answerId != Some(answerId))
  }

  /**
   * `createAnswer`: inserts the answer, appends its id to the question's answer
   * array, logs one "answer" interaction carrying the question and answer ids, and
   * adds exactly 10 to the author's reputation. The tags, question-tag and message
   * tables are outside its frame.
   */
  method CreateAnswer(db: Store, content: string, author: int, questionId: int, now: int)
    returns (answerId: int)
    requires db.Valid()
    modifies db`answers, db`questions, db`interactions, db`users, db`nextId
    ensures db.Valid()
    ensures answerId == old(db.nextId) && forall a :: a in old(db.answers) ==> a.id != answerId
    ensures db.answers == old(db.answers) + [Answer(answerId, author, questionId, content, [], [], now)]
    ensures db.questions == WithAnswerLinked(old(db.questions), questionId, answerId)
    ensures db.interactions == old(db.interactions) +
              [Interaction(answerId + 1, author, AnswerGiven, None, Some(questionId), Some(answerId), [])]
    ensures db.users == AddReputation(old(db.users), author, 10)
  {
    answerId := db.InsertAnswer(author, questionId, content, now);
    db.UpdateQuestions(WithAnswerLinked(db.questions, questionId, answerId));
    var _ := db.LogInteraction(author, AnswerGiven, None, Some(questionId), Some(answerId), []);
    db.AddReputationOf(author, 10);
  }

  /**
   * `deleteAnswer`: a missing id throws and changes nothing; otherwise the answer
   * row goes, its id leaves its question's answer array, and every interaction
   * that refers to it goes. Only those three tables change.
   */
  method DeleteAnswer(db: Store, answerId: int) returns (r: Outcome)
    requires db.Valid()
    modifies db`answers, db`questions, db`interactions
    ensures db.Valid()
    ensures match FindAnswer(old(db.answers), answerId)
            case None => r == Fail("Answer not found") && db.answers == old(db.answers)
                         && db.questions == old(db.questions) && db.interactions == old(db.interactions)
            case Some(a) =>
              && r == Pass
              && db.answers == AnswersWithout(old(db.answers), answerId)
              && db.questions == WithAnswerUnlinked(old(db.questions), a.questionId, answerId)
              && db.interactions == InteractionsWithoutAnswer(old(db.interactions), answerId)
  {
    var found := FindAnswer(db.answers, answerId);
    if found.None? {
      return Fail("Answer not found");
    }
    db.KeepAnswers(AnswersWithout(db.answers, answerId));
    db.UpdateQuestions(WithAnswerUnlinked(db.questions, found.value.questionId, answerId));
    db.KeepInteractions(InteractionsWithoutAnswer(db.interactions, answerId));
    r := Pass;
  }

  const DEFAULT_ANSWER_PAGE := 1
  const DEFAULT_ANSWER_PAGE_SIZE := 5

  /**
   * The order `getAnswers` ends up with. The direction string is bound as a value,
   * so it becomes a constant second sort key and every choice sorts ascending:
   * by the upvoter array for "highestUpvotes" and "lowestUpvotes", by creation
   * time otherwise.
   */
  function AnswerOrder(sortBy: string): (Answer, Answer) -> bool {
    if sortBy == "highestUpvotes" || sortBy == "lowestUpvotes" then (a: Answer, b: Answer) => ArrayLe(a.upvotes, b.upvotes)
    else (a: Answer, b: Answer) => a.createdAt <= b.createdAt
  }

  lemma AnswerOrderIsOrder(sortBy: string)
    ensures Total(AnswerOrder(sortBy)) && Transitive(AnswerOrder(sortBy))
  {
    if sortBy == "highestUpvotes" || sortBy == "lowestUpvotes" {
      var le := AnswerOrder(sortBy);
      forall a: Answer, b: Answer ensures le(a, b) || le(b, a) {
        ArrayLeTotal(a.upvotes, b.upvotes);
      }
      forall a: Answer, b: Answer, c: Answer | le(a, b) && le(b, c) ensures le(a, c) {
        ArrayLeTransitive(a.upvotes, b.upvotes, c.upvotes);
      }
    }
  }

  /** `WHERE question_id = questionId`: the question's answers, in table order. */
  function AnswersOn(answers: seq<Answer>, questionId: int): (r: seq<Answer>)
    ensures forall a :: a in r <==> a in answers && a.questionId == questionId
  {
    Filter(answers, (a: Answer) => a.questionId == questionId)
  }

  /**
   * `getAnswers`: the question's answers in the sort order, from offset
   * `(page - 1) * pageSize` (defaults 1 and 5), and
   * `isNextAnswer = total > offset + returned`.
   */
  function GetAnswers(answers: seq<Answer>, questionId: int, sortBy: string, page: Option<int>, pageSize: Option<int>)
    : (r: Result<(seq<Answer>, bool)>)
    ensures var p := page.GetOr(DEFAULT_ANSWER_PAGE);
            var n := pageSize.GetOr(DEFAULT_ANSWER_PAGE_SIZE);
            var total := |AnswersOn(answers, questionId)|;
            && (r.Ok? <==> (p - 1) * n >= 0 && n >= 0)
            && (r.Ok? ==> |r.value.0| <= n && (r.value.1 <==> total > (p - 1) * n + n))
    ensures r.Ok? ==>
              var p := page.GetOr(DEFAULT_ANSWER_PAGE);
              var n := pageSize.GetOr(DEFAULT_ANSWER_PAGE_SIZE);
              Fetch(SortBy(AnswersOn(answers, questionId), AnswerOrder(sortBy)), (p - 1) * n, n) == Ok(r.value.0)
    ensures r.Ok? ==> SortedBy(r.value.0, AnswerOrder(sortBy))
    ensures r.Ok? ==> forall a :: a in r.value.0 ==> a in answers && a.questionId == questionId
  {
    var p := page.GetOr(DEFAULT_ANSWER_PAGE);
    var n := pageSize.GetOr(DEFAULT_ANSWER_PAGE_SIZE);
    AnswerOrderIsOrder(sortBy);
    SortedPageAfter(AnswersOn(answers, questionId), AnswerOrder(sortBy), (p - 1) * n, n)
  }
}
