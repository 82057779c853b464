/**
 * The rows of the store's tables and the in-memory store that stands in for the
 * PostgreSQL database. Only the columns the action layer reads or writes are kept.
 */
module Schema {
  import opened Wrappers
  import opened Seqs

  /** The `action` column of an interaction row: "view", "ask_question", "answer", or another string. */
  datatype ActionKind = View | AskQuestion | AnswerGiven | OtherAction(name: string)

  /**
   * What a user row's `savedQuestions` value holds: a real array, the text that
   * `JSON.stringify(ids)` produced, or nothing.
   */
  datatype SavedValue = SavedArray(ids: seq<int>) | SavedJson(ids: seq<int>) | SavedNull

  datatype User = User(
    id: int, clerkId: string, name: string, username: string,
    reputation: int, joinedAt: int, savedQuestions: SavedValue)

  datatype Tag = Tag(id: int, name: string, description: string, createdAt: int, questionCount: int)

  /** Question votes are the integer counters the vote actions add to and subtract from. */
  datatype Question = Question(
    id: int, title: string, content: string, views: int,
    upvotes: int, downvotes: int, answersCount: int, answers: seq<int>,
    authorId: int, createdAt: int)

  datatype QuestionTag = QuestionTag(questionId: int, tagId: int)

  /** Answer votes are arrays of voter ids. */
  datatype Answer = Answer(
    id: int, authorId: int, questionId: int, content: string,
    upvotes: seq<int>, downvotes: seq<int>, createdAt: int)

  datatype Interaction = Interaction(
    id: int, userId: int, action: ActionKind, tagId: Option<int>,
    questionId: Option<int>, answerId: Option<int>, tags: seq<int>)

  datatype Message = Message(
    id: int, content: string, senderId: int, receiverId: int,
    createdAt: int, read: bool, replyToId: Option<int>)

  /** `UPDATE users SET reputation = reputation + delta WHERE id = userId`. */
  function AddReputation(users: seq<User>, userId: int, delta: int): (r: seq<User>)
    ensures |r| == |users|
    ensures forall i :: 0 <= i < |users| ==>
      r[i] == if users[i].id == userId then users[i].(reputation := users[i].reputation + delta) else users[i]
  {
    MapWhere(users, (u: User) => u.id == userId, (u: User) => u.(reputation := u.reputation + delta))
  }

  /** The in-memory database: one sequence per table and the serial id counter. */
  class Store {
    var users: seq<User>
    var tags: seq<Tag>
    var questions: seq<Question>
    var questionTags: seq<QuestionTag>
    var answers: seq<Answer>
    var interactions: seq<Interaction>
    var messages: seq<Message>
    /** The next value the serial id sequence hands out. */
    var nextId: int

    /** Every id in use is below `nextId`, so a freshly issued id is new. */
    ghost predicate Valid()
      reads this
    {
      && (forall u :: u in users ==> u.id < nextId)
      && (forall t :: t in tags ==> t.id < nextId)
      && (forall q :: q in questions ==> q.id < nextId)
      && (forall a :: a in answers ==> a.id < nextId)
      && (forall i :: i in interactions ==> i.id < nextId)
      && (forall m :: m in messages ==> m.id < nextId)
    }

    constructor ()
      ensures Valid()
      ensures users == [] && tags == [] && questions == [] && questionTags == []
      ensures answers == [] && interactions == [] && messages == []
    {
      users, tags, questions, questionTags := [], [], [], [];
      answers, interactions, messages := [], [], [];
      nextId := 1;
    }

    /** Draws the next serial id. */
    method NewId() returns (id: int)
      requires Valid()
      modifies this`nextId
      ensures Valid()
      ensures id == old(nextId) && nextId == id + 1
    {
      id := nextId;
      nextId := nextId + 1;
    }

    // The statements below are the single-table writes the actions are made of.
    // Each touches one table (and the id counter when it inserts) and keeps `Valid`.

    /** An `UPDATE` of the users table: the same rows with the same ids, new column values. */
    method UpdateUsers(s: seq<User>)
      requires Valid()
      requires |s| == |users| && forall k :: 0 <= k < |s| ==> s[k].id == users[k].id
      modifies this`users
      ensures Valid() && users == s
    {
      forall u | u in s ensures u.id < nextId {
        var k :| 0 <= k < |s| && s[k] == u;
        assert users[k] in users;
      }
      users := s;
    }

    method UpdateTags(s: seq<Tag>)
      requires Valid()
      requires |s| == |tags| && forall k :: 0 <= k < |s| ==> s[k].id == tags[k].id
      modifies this`tags
      ensures Valid() && tags == s
    {
      forall t | t in s ensures t.id < nextId {
        var k :| 0 <= k < |s| && s[k] == t;
        assert tags[k] in tags;
      }
      tags := s;
    }

    method UpdateQuestions(s: seq<Question>)
      requires Valid()
      requires |s| == |questions| && forall k :: 0 <= k < |s| ==> s[k].id == questions[k].id
      modifies this`questions
      ensures Valid() && questions == s
    {
      forall q | q in s ensures q.id < nextId {
        var k :| 0 <= k < |s| && s[k] == q;
        assert questions[k] in questions;
      }
      questions := s;
    }

    method UpdateAnswers(s: seq<Answer>)
      requires Valid()
      requires |s| == |answers| && forall k :: 0 <= k < |s| ==> s[k].id == answers[k].id
      modifies this`answers
      ensures Valid() && answers == s
    {
      forall a | a in s ensures a.id < nextId {
        var k :| 0 <= k < |s| && s[k] == a;
        assert answers[k] in answers;
      }
      answers := s;
    }

    /** A `DELETE` from the users table: `s` holds the rows that stay. */
    method KeepUsers(s: seq<User>)
      requires Valid() && forall u :: u in s ==> u in users
      modifies this`users
      ensures Valid() && users == s
    {
      users := s;
    }

    method KeepQuestions(s: seq<Question>)
      requires Valid() && forall q :: q in s ==> q in questions
      modifies this`questions
      ensures Valid() && questions == s
    {
      questions := s;
    }

    method KeepAnswers(s: seq<Answer>)
      requires Valid() && forall a :: a in s ==> a in answers
      modifies this`answers
      ensures Valid() && answers == s
    {
      answers := s;
    }

    method KeepInteractions(s: seq<Interaction>)
      requires Valid() && forall i :: i in s ==> i in interactions
      modifies this`interactions
      ensures Valid() && interactions == s
    {
      interactions := s;
    }

    /** `UPDATE users SET reputation = reputation + delta WHERE id = userId`. */
    method AddReputationOf(userId: int, delta: int)
      requires Valid()
      modifies this`users
      ensures Valid() && users == AddReputation(old(users), userId, delta)
    {
      UpdateUsers(AddReputation(users, userId, delta));
    }

    /** Inserts a question row with zero counters and no answers under the next id. */
    method InsertQuestion(title: string, content: string, author: int, now: int) returns (id: int)
      requires Valid()
      modifies this`questions, this`nextId
      ensures Valid()
      ensures id == old(nextId) && nextId == id + 1
      ensures questions == old(questions) + [Question(id, title, content, 0, 0, 0, 0, [], author, now)]
    {
      id := NewId();
      questions := questions + [Question(id, title, content, 0, 0, 0, 0, [], author, now)];
    }

    /** Inserts an answer row without votes under the next id. */
    method InsertAnswer(author: int, questionId: int, content: string, now: int) returns (id: int)
      requires Valid()
      modifies this`answers, this`nextId
      ensures Valid()
      ensures id == old(nextId) && nextId == id + 1
      ensures answers == old(answers) + [Answer(id, author, questionId, content, [], [], now)]
    {
      id := NewId();
      answers := answers + [Answer(id, author, questionId, content, [], [], now)];
    }

    /** Inserts a tag row with a zero question count under the next id. */
    method InsertTag(name: string, description: string, now: int) returns (id: int)
      requires Valid()
      modifies this`tags, this`nextId
      ensures Valid()
      ensures id == old(nextId) && nextId == id + 1
      ensures tags == old(tags) + [Tag(id, name, description, now, 0)]
    {
      id := NewId();
      tags := tags + [Tag(id, name, description, now, 0)];
    }

    /** Inserts question-tag rows (that table has no id column). */
    method InsertQuestionTags(links: seq<QuestionTag>)
      requires Valid()
      modifies this`questionTags
      ensures Valid() && questionTags == old(questionTags) + links
    {
      questionTags := questionTags + links;
    }

    /** Inserts an interaction row under the next id. */
    method LogInteraction(userId: int, action: ActionKind, tagId: Option<int>, questionId: Option<int>,
                          answerId: Option<int>, tagIds: seq<int>) returns (id: int)
      requires Valid()
      modifies this`interactions, this`nextId
      ensures Valid()
      ensures id == old(nextId) && nextId == id + 1
      ensures interactions == old(interactions) + [Interaction(id, userId, action, tagId, questionId, answerId, tagIds)]
    {
      id := NewId();
      interactions := interactions + [Interaction(id, userId, action, tagId, questionId, answerId, tagIds)];
    }
  }
}
