# Q&A site action layer, modelled in Dafny

This project models the server actions of a Next.js question-and-answer site.
The site keeps users, questions, answers, tags, question-tag links,
interactions and direct messages in PostgreSQL through Drizzle. A few pure
helpers of its front end are modelled too.

- **Database.** An in-memory `Schema.Store` class stands in for the database.
  It holds one `seq` per table and the serial id counter.
- **State-changing actions** are methods on that store. Each `ensures` states
  the whole new state in terms of the old:
  - voting on answers and questions;
  - creating and deleting questions and answers;
  - recording a view;
  - saving a question;
  - deleting a user;
  - marking and deleting messages.
- **Read-only queries** are functions over the tables: question, tag and user
  lists, recommendations, saved questions, conversations, threads and unread
  counts. Their paging is modelled as `OFFSET`/`LIMIT` (module `Paging`).

The pure helpers are:

- `Utils`:
  - relative time stamps;
  - the badge tally;
  - `formatId`;
  - `ensureStartsWith`.
- `Validation`: the zod form schemas, as the list of issues they report.
- `QuestionForm`: the tag input of the ask-question form.
- `ParseHtml`: the Editor.js block serialiser.

Modules:

| module | file | models |
|---|---|---|
| `Wrappers`, `Seqs`, `Ordering`, `Paging` | wrappers.dfy, seqs.dfy, ordering.dfy, paging.dfy | Option/Result; SQL-like sequence operations (`array_remove`, filters, find-first); stable sorting; offset/limit paging |
| `Schema` | schema.dfy | `db/schema.ts` rows and the store |
| `AnswerActions` | answer_action.dfy | `lib/actions/answer.action.ts` |
| `QuestionActions` | question_action.dfy | `lib/actions/question.action.ts` |
| `InteractionActions` | interaction_action.dfy | `lib/actions/interaction.action.ts` |
| `TagActions` | tag_actions.dfy | `lib/actions/tag.actions.ts` |
| `UserActions` | user_action.dfy | `lib/actions/user.action.ts` |
| `MessageActions` | message_action.dfy | `lib/actions/message.action.ts` |
| `Utils` | utils.dfy | `lib/utils.ts` |
| `Validation` | validation.dfy | `lib/validation.ts` |
| `QuestionForm` | question_form.dfy | `components/forms/Question.tsx` |
| `ParseHtml` | parse_html.dfy | `components/shared/ParseHtml.tsx` |

Two details of the source are kept as written:

- `downvoteAnswer` adds 10 to the answer author's reputation on a downvote that
  is not an undo (`lib/actions/answer.action.ts:238`).
- The question vote actions update `upvotes` and `downvotes` as integer
  counters (`lib/actions/question.action.ts:232`), although `db/schema.ts:44-45`
  declares both columns as integer arrays. The model keeps them as counters.

## Model

| member | source | states |
|---|---|---|
| Schema.AddReputation | lib/actions/answer.action.ts:54-60 | Only the rows with the given id gain `delta` reputation. Every other row, and the table's length, stay as they were. |
| Schema.Store.NewId | db/schema.ts:14 | The serial sequence hands out an id that no row uses yet, and the counter moves past it. |
| Schema.Store.AddReputationOf | lib/actions/question.action.ts:161-165 | The store's users become `AddReputation` of the old ones: the rows with that id gain `delta`, and the store stays valid. |
| Schema.Store.InsertQuestion | lib/actions/question.action.ts:96-103 | Appends one question with a fresh id, zero counters, no answers and the given author and time. The id counter moves past it. |
| Schema.Store.InsertAnswer | lib/actions/answer.action.ts:22-31 | Appends one answer with a fresh id, no votes, for the given question and author. |
| Schema.Store.InsertTag | lib/actions/question.action.ts:127-130 | Appends one tag with a fresh id, the given name and description and a zero question count. |
| Schema.Store.InsertQuestionTags | lib/actions/question.action.ts:140-146 | Appends the given question-tag rows, in order. |
| Schema.Store.LogInteraction | lib/actions/question.action.ts:151-158 | Appends one interaction row with a fresh id and the given user, action, tag, question, answer and tag list. |
| Paging.Fetch | lib/actions/question.action.ts:60-63 | `OFFSET o LIMIT n` is rejected for a negative offset or limit. Otherwise it returns `min(n, max(0, len - o))` rows, which are the rows from position `o` on. |
| Paging.SortedPage | lib/actions/user.action.ts:97-104 | A window of the sorted rows is itself sorted and holds only input rows. |
| Paging.IsNextRulesAgree | lib/actions/tag.actions.ts:165-166 | The three `isNext` rules in the actions agree: `total > offset + returned`, `total > pageSize * page`, and "more than pageSize of pageSize+1 fetched". Each holds exactly when rows remain past the page. |
| Paging.FetchOneMore | lib/actions/tag.actions.ts:163-166 | The first `pageSize` rows of a `pageSize + 1` fetch are the `pageSize` fetch. |
| Paging.FirstPagesAreOnePage | lib/actions/question.action.ts:27-28 | Pages 1..n, concatenated, are the single window of `n * pageSize` rows: nothing is repeated or skipped. |
| AnswerActions.UpvoteCounts | lib/actions/answer.action.ts:144-165 | With `hasUpvoted`, every occurrence of the voter leaves the upvotes and the downvotes are unchanged. Otherwise one occurrence is appended to the upvotes, and with `hasDownvoted` every occurrence leaves the downvotes. Other voters' counts never change. |
| AnswerActions.DownvoteCounts | lib/actions/answer.action.ts:199-220 | The mirror image, with `hasDownvoted` taking priority. |
| AnswerActions.UpvoteTransition | lib/actions/answer.action.ts:144-165 | Suppose the flags match membership and no user votes twice or on both sides. Then an upvote moves the voter NotVoted→Upvoted, Upvoted→NotVoted or Downvoted→Upvoted, the arrays stay well formed, and no other user's state changes. |
| AnswerActions.DownvoteTransition | lib/actions/answer.action.ts:199-220 | The mirror image for downvotes. |
| AnswerActions.CastAllWellFormed | lib/actions/answer.action.ts:139-220 | After any sequence of votes whose flags are read from the arrays, no user is in both arrays or twice in one. |
| AnswerActions.UpvoteTwice | lib/actions/answer.action.ts:144-165 | Two upvotes with up-to-date flags restore both arrays exactly when starting from no vote. Starting from an upvote, they restore each array's members. |
| AnswerActions.DownvoteTwice | lib/actions/answer.action.ts:199-220 | The mirror image for downvotes. |
| AnswerActions.VoteUndoRestoresReputation | lib/actions/answer.action.ts:167-184 | Voter ±2 and author ±10: a vote followed by its undo leaves every reputation unchanged. This holds for upvotes and for downvotes (whose author delta is +10, line 238), even when voter and author coincide. |
| AnswerActions.UpvoteAnswer | lib/actions/answer.action.ts:139-191 | The arrays of the answer with that id are updated as `UpvoteVotes` says. The voter gets ∓2, then the author ∓10. With no such answer the voter's change has happened and the call fails. The `modifies` clause keeps every other table. |
| AnswerActions.DownvoteAnswer | lib/actions/answer.action.ts:194-248 | As above, with the downvote update and deltas. |
| AnswerActions.CreateAnswer | lib/actions/answer.action.ts:17-68 | Inserts the answer with a fresh id. Appends the id to its question's `answers` array, which is the `array_append` of line 36 read as meant (see Left out). Logs one "answer" interaction carrying the question and answer ids. Adds exactly 10 to the author's reputation. |
| AnswerActions.DeleteAnswer | lib/actions/answer.action.ts:251-281 | A missing id fails with "Answer not found" and changes nothing. Otherwise the answer goes, and its id leaves its question's `answers` array, which is the `array_remove` of line 268 read as meant. Every interaction naming the answer goes. |
| AnswerActions.AnswerOrderIsOrder | lib/actions/answer.action.ts:78-98 | Each sort column gives a total preorder. Upvote arrays compare in PostgreSQL's array order; creation times compare as numbers. |
| AnswerActions.GetAnswers | lib/actions/answer.action.ts:72-136 | Offset is `(page-1)*pageSize`, with defaults 1 and 5. The page is the window at that offset of the question's answers. They are sorted ascending by the sort column: the upvote array for "highestUpvotes" and "lowestUpvotes", otherwise the creation time. The page is sorted and holds at most pageSize answers, all of that question. `isNextAnswer` iff total > offset + pageSize. |
| QuestionActions.VoteTotalMovesByOne | lib/actions/question.action.ts:229-285 | upvotes + downvotes changes by -1 on an undo, 0 on a switch, +1 otherwise, so by at most 1 per call. |
| QuestionActions.CountersTrackVoters | lib/actions/question.action.ts:229-250 | The counter updates are the length changes of the corresponding array updates on well-formed arrays with matching flags. |
| QuestionActions.UpvoteQuestion | lib/actions/question.action.ts:225-257 | Each question row with that id: `hasUpvoted` gives up-1; else `hasDownvoted` gives down-1, up+1; else up+1. Nothing else changes. |
| QuestionActions.DownvoteQuestion | lib/actions/question.action.ts:260-292 | The mirror image, with `hasDownvoted` first. |
| QuestionActions.ResolveOneSpec | lib/actions/question.action.ts:108-134 | A tag name resolves to a tag whose name contains it. The table is unchanged when such a tag exists. Otherwise exactly one tag with the default description and a fresh id is appended. |
| QuestionActions.ResolveTagsShape | lib/actions/question.action.ts:108-134 | One id per name. The tags table only grows at the end, with default-description tags whose ids are fresh. |
| QuestionActions.ResolveTagsMatch | lib/actions/question.action.ts:108-134 | Each resolved id names a final tag whose name contains its tag name. |
| QuestionActions.ResolveTagsReuse | lib/actions/question.action.ts:112-126 | When every name matches an existing tag, no tag is created and no id is consumed. |
| QuestionActions.ResolveTag | lib/actions/question.action.ts:110-133 | The store's tags and id counter become what `ResolveOne` gives. Other tables are untouched. |
| QuestionActions.ResolveTagList | lib/actions/question.action.ts:108-134 | The names are resolved in order against the store. |
| QuestionActions.LinksMatchNames | lib/actions/question.action.ts:108-148 | The links `createQuestion` inserts are one per tag name, in order. Each ties the new question to a tag of the final table whose name contains that tag name. |
| QuestionActions.CreateQuestion | lib/actions/question.action.ts:90-174 | Inserts the question with a fresh id, resolves the tags, and links one row per name. Logs one "ask_question" interaction. Adds exactly 5 reputation to the author. |
| QuestionActions.DeleteQuestion | lib/actions/question.action.ts:295-319 | Removes the question, its answers and the interactions naming it. Lowers `questionCount` of every tag row by one (there is no filter). |
| QuestionActions.TagRows | lib/actions/question.action.ts:33-35 | One question's part of the left join: at least one row, all for that question, and an untagged row iff the question has no link. |
| QuestionActions.TagRowsCount | lib/actions/question.action.ts:33-35 | A question yields one row per link to each tag, and a single untagged row when it has no link. |
| QuestionActions.JoinTags | lib/actions/question.action.ts:33-35 | The left join yields a row for every question and only rows of listed questions. |
| QuestionActions.JoinTagsIsLeftJoin | lib/actions/question.action.ts:33-35 | The join has SQL's multiplicities. A row (q, t) occurs (occurrences of q) × (links of q to t) times. The untagged row of q occurs once per occurrence of q when q has no link, and never otherwise. |
| QuestionActions.OrderRowsSorts | lib/actions/question.action.ts:48-58 | Ordering is a permutation of the rows. They are sorted newest first under "newest" and most viewed first under "frequent", and stay in join order otherwise. |
| QuestionActions.ListRows | lib/actions/question.action.ts:38-58 | A row is listed iff the join gives it and it satisfies the clause: the search, or `answersCount = 0` under "unanswered". Each row appears as often as in the filtered join (same multiset), in the filter's order. |
| QuestionActions.GetQuestions | lib/actions/question.action.ts:25-88 | Skip is `(page-1)*pageSize`, with defaults 1 and 15. The page is the window of `ListRows` at that skip: at most pageSize rows, all satisfying the clause. `isNext` iff the search-only total > skip + returned. |
| QuestionActions.RecommendedTagIds | lib/actions/question.action.ts:368-383 | The candidate tags are distinct. They are exactly the tag ids of the user's interactions that join a tag row. |
| QuestionActions.RecommendedPage | lib/actions/question.action.ts:397-416 | The page is the window at `(p-1)*n` of the matching questions, with `isNext` iff their number > n * p. |
| QuestionActions.GetRecommendedQuestions | lib/actions/question.action.ts:357-420 | An unknown user gives "User not found". Otherwise the page is the window at `(page-1)*pageSize` (defaults 1 and 20) of the recommendable questions in table order. Each carries a candidate tag, is not authored by the user, and matches the search. `isNext` iff total > pageSize * page. |
| InteractionActions.ViewStepQuestions | lib/actions/interaction.action.ts:13-27 | For an existing question, its views rise by exactly 1, with or without a user, and no other question field changes. |
| InteractionActions.ViewStepUnknown | lib/actions/interaction.action.ts:13-21 | An unknown question returns "not found" and leaves the state as it was. |
| InteractionActions.ViewStepFound | lib/actions/interaction.action.ts:23-57 | A view of an existing question is the counter update (to the views read plus one) followed by the logging half, and it never reports "not found". |
| InteractionActions.ViewStepInteractions | lib/actions/interaction.action.ts:30-54 | Existing rows stay. No row is added without a user. For an existing question, a viewer who had at most one "view" row for it before ends with exactly one. Every other (user, question) pair keeps its count. |
| InteractionActions.RepeatedViews | lib/actions/interaction.action.ts:24-54 | For an existing question, after n ≥ 1 calls by a viewer who had at most one "view" row for it before, views have risen by n and the viewer has exactly one "view" row. |
| InteractionActions.SetViews | lib/actions/interaction.action.ts:24-27 | Sets `views` on the rows with that id; nothing else changes. |
| InteractionActions.RecordView | lib/actions/interaction.action.ts:29-57 | The store's interactions, counter and result become what `LogView` gives: nothing without a user, "already viewed" when a view row exists, otherwise one new view row. |
| InteractionActions.ViewFound | lib/actions/interaction.action.ts:23-57 | For an existing question, its rows' views become the views read plus one, and the logging half follows. |
| InteractionActions.ViewQuestion | lib/actions/interaction.action.ts:8-62 | An unknown question gives "not found" and changes nothing. Otherwise the questions, interactions and counter become what `ViewStep` gives. The `modifies` clause keeps every other table. |
| TagActions.CountTags | lib/actions/tag.actions.ts:36-45 | `tagCounts` has a key exactly for each tag id in the lists. Each count is its number of occurrences, so at least 1. |
| TagActions.Entries | lib/actions/tag.actions.ts:48-50 | `Object.entries` gives one entry per tag id, with its true count. |
| TagActions.RankedFacts | lib/actions/tag.actions.ts:48-50 | The sorted entries are non-increasing by count, keep their true counts, and cover every id. |
| TagActions.TopTagIdsSorted | lib/actions/tag.actions.ts:48-51 | At most `limit` ids, each from the lists, in non-increasing order of count. |
| TagActions.TopTagIdsAreTop | lib/actions/tag.actions.ts:48-51 | No id left out occurs more often than an id kept. |
| TagActions.GetTopInteractedTags | lib/actions/tag.actions.ts:18-64 | It is an error iff the user has no interactions. Otherwise it returns the tag rows whose id is among the top `limit` (default 10), in table order. |
| TagActions.TagOrderIsOrder | lib/actions/tag.actions.ts:71-88 | Each sort choice is a total preorder: "popular", "recent", "old", and name ascending by default. |
| TagActions.GetAllTags | lib/actions/tag.actions.ts:66-133 | The page is the window at `(page-1)*pageSize` (defaults 1 and 20) of the tags matching the search, sorted by the filter's order. It holds at most pageSize tags and is sorted. `isNext` iff total > offset + pageSize. |
| TagActions.TagQuestionRows | lib/actions/tag.actions.ts:152-161 | The rows belong to the tag with that id and pass the title search. They are sorted newest question first, with rows that have no question first. |
| TagActions.TagQuestionRowsComplete | lib/actions/tag.actions.ts:152-161 | Every question linked to the tag and passing the search appears, joined with the tag's name. |
| TagActions.TagQuestionRowsCount | lib/actions/tag.actions.ts:152-161 | The rows have the left joins' multiplicities. Each tag row with that id gives a question (once per link to it, times the copies of its row) and an empty row (once per link whose question is missing, or once when no link points at the tag). The search then keeps or drops every copy of a row. |
| TagActions.LinkRowsCount | lib/actions/tag.actions.ts:158-159 | One tag row gives exactly `JoinCount` copies of each row carrying its name, and no row with another name. |
| TagActions.GetQuestionByTagId | lib/actions/tag.actions.ts:135-177 | Fetches pageSize+1 rows and returns the first pageSize. `isNext` iff rows remain past the page. `tagTitle` is the first fetched row's name, or "". A pageSize of -1 fetches nothing and returns no questions with `isNext` true (`0 > -1`). |
| UserActions.ToggleAsWrittenDoesNotUndo | lib/actions/user.action.ts:136-150 | As written, saving 7 twice leaves [7] saved, and saving 8 after 7 leaves only [8]. |
| UserActions.ToggleFlips | lib/actions/user.action.ts:138-152 | A toggle flips whether the question is saved and keeps every other id's membership. A save appends at the end. An unsave removes every occurrence and keeps the other ids in order and multiplicity (it is the filter `y != questionId`). |
| UserActions.ToggleTwice | lib/actions/user.action.ts:138-152 | Toggling twice restores membership, and from an unsaved state restores the list exactly. |
| UserActions.ToggleSaveQuestion | lib/actions/user.action.ts:125-159 | An unknown user fails with "User not found" and changes nothing. Otherwise the store applies the corrected `Toggle`, which reads the stored list as `getSavedQuestions` does, to that user's list. Nothing else changes. The read as written exists only as `ToggleAsWritten` (see Findings). |
| UserActions.DeleteUser | lib/actions/user.action.ts:64-90 | An unknown clerk id gives "User not found" and no change. Otherwise the user's questions, answers and row go, and the row is returned. |
| UserActions.UserOrderIsOrder | lib/actions/user.action.ts:97-99 | Each ordering is a total preorder: joinedAt ascending (default), joinedAt descending, or reputation descending. |
| UserActions.GetAllUsers | lib/actions/user.action.ts:92-123 | The page is the window at `(page-1)*pageSize` (defaults 1 and 100) of the users matching the search, sorted by the filter's order. It holds at most pageSize users and is sorted. |
| UserActions.SavedOrderIsOrder | lib/actions/user.action.ts:177-184 | Each saved-question sort is a total preorder. |
| UserActions.GetSavedQuestions | lib/actions/user.action.ts:161-207 | An unknown user is an error. Otherwise the result is the window of pageSize+1 rows at `(page-1)*pageSize` of the user's saved questions that match the search, sorted by the filter. It is returned untrimmed. `isNext` iff saved matches remain past the page, and then pageSize+1 rows came back. |
| UserActions.GetUserQuestions | lib/actions/user.action.ts:266-297 | The total is the user's question count. The rows' questions are the window at `(page-1)*pageSize` of the user's questions sorted newest first. `isNextQuestions` iff total > offset + pageSize. |
| UserActions.QuestionPage | lib/actions/user.action.ts:276-294 | The number of given questions, their window newest first, and `isNext` iff that number > offset + n. The tag joined through `tags.id = questions.views` is not stated (see Left out). |
| UserActions.GetUserAnswers | lib/actions/user.action.ts:299-330 | The same for answers: the rows' answers are the window of the user's answers newest first. Each answer is joined to its own question. |
| UserActions.AnswerPage | lib/actions/user.action.ts:309-327 | The count, and the window of the given answers newest first, each with its question. |
| MessageActions.Inbox | lib/actions/message.action.ts:87-93 | Exactly the messages the user sent or received whose two accounts exist, each as often as the table holds it (the same multiset as the filtered table), newest first. |
| MessageActions.GetConversations | lib/actions/message.action.ts:61-113 | The reduce loop returns `LatestPerCounterpart` of the inbox. |
| MessageActions.LatestAreFirsts | lib/actions/message.action.ts:96-106 | The kept messages keep input order, and each is the first message with its counterpart. |
| MessageActions.CounterpartsDistinct | lib/actions/message.action.ts:96-106 | No two conversations share a counterpart. |
| MessageActions.CounterpartsCovered | lib/actions/message.action.ts:96-106 | Every counterpart other than the user has a conversation. |
| MessageActions.ConversationsSpec | lib/actions/message.action.ts:61-113 | The list of conversations is the newest message per counterpart: first in the inbox order, distinct, and covering the counterparts. |
| MessageActions.MessagesBetween | lib/actions/message.action.ts:116-161 | Exactly the messages between the two users with both accounts present, each as often as the table holds it (the same multiset as the filtered table), oldest first. |
| MessageActions.ThreadIsSymmetric | lib/actions/message.action.ts:141-151 | Both participants see the same thread. |
| MessageActions.UnreadCount | lib/actions/message.action.ts:163-178 | The number of unread messages the user received: at most the table's size, and zero iff there is none. |
| MessageActions.UnreadAfterMark | lib/actions/message.action.ts:180-189 | After marking, the unread count is the number of unread messages whose ids were not listed. |
| MessageActions.MarkAllRead | lib/actions/message.action.ts:180-189 | Listing every unread id brings the count to zero. |
| MessageActions.MarkAsRead | lib/actions/message.action.ts:182-185 | The store's messages become `MarkRead` of the old ones. |
| MessageActions.MarkReadIdempotent | lib/actions/message.action.ts:182-185 | Marking the same ids twice is marking them once. |
| MessageActions.DeleteById | lib/actions/message.action.ts:223-226 | Exactly the messages with other ids remain. |
| MessageActions.DeleteAbsent | lib/actions/message.action.ts:223-226 | Deleting an unused id changes nothing. |
| MessageActions.DeleteMessage | lib/actions/message.action.ts:221-232 | Reports success and removes the message with that id. |
| Utils.TimeStamp | lib/utils.ts:13-45 | Under a minute the text is "Just Now". From a minute on it starts with a digit and ends in " ago". |
| Utils.JustNowUnderAMinute | lib/utils.ts:13-27 | "Just Now" iff less than 60000 ms have elapsed. |
| Utils.LargestUnitWins | lib/utils.ts:29-43 | From a minute on, the phrase names the largest unit with a positive count, and every larger unit counts zero. |
| Utils.CountIsWholeUnits | lib/utils.ts:17-27 | Each count is the elapsed time divided by the unit's length, rounded down (year 365 days, month 30). |
| Utils.PluralAboveOne | lib/utils.ts:29-43 | The unit is pluralised iff the count is above one. |
| Utils.DecimalRoundTrip | lib/utils.ts:29-43 | The number in the phrase reads back as the count. |
| Utils.Tally | lib/utils.ts:116-135 | Each level's badge count lies between 0 and the number of criteria. |
| Utils.AssignBadges | lib/utils.ts:116-135 | The loop computes `Tally`. |
| Utils.Award | lib/utils.ts:126-130 | One criterion adds one badge for each level whose threshold its count reaches. |
| Utils.TallyCountsReached | lib/utils.ts:117-133 | Each level counts exactly the criteria reaching its threshold. |
| Utils.TallyMonotone | lib/utils.ts:117-133 | Raising a criterion's count never lowers a badge count. |
| Utils.FormatId | lib/utils.ts:137-139 | ".." followed by the last six characters (all when fewer), which are a suffix of the id. |
| Utils.EnsureStartsWith | lib/utils.ts:195-198 | The result starts with the prefix. It is the input when that already starts with it, and otherwise the input follows the prefix. |
| Utils.EnsureStartsWithIdempotent | lib/utils.ts:195-198 | A second application changes nothing. |
| Validation.QuestionIssues | lib/validation.ts:3-7 | No issue iff the title has 5..150 characters, the explanation at least 5, and there are 1..3 tags of 1..15 characters each. |
| Validation.AnswerIssues | lib/validation.ts:10-12 | No issue iff the answer has at least 10 characters. |
| Validation.ProfileIssues | lib/validation.ts:14-20 | No issue iff each present field is within its bounds and a present website is a URL. |
| Validation.SignInIssues | lib/validation.ts:25-28 | No issue iff the e-mail is valid with ≥ 3 characters and the password has ≥ 3. |
| Validation.SignUpIssues | lib/validation.ts:30-42 | No issue iff every field passes and the passwords agree. The mismatch issue is reported iff they differ. |
| Validation.UpdateProfileIssues | lib/validation.ts:43-46 | No issue iff name ≥ 3 and the e-mail is valid with ≥ 3 characters. |
| Validation.UpdateUserIssues | lib/validation.ts:48-51 | No issue iff the profile part passes and id and role are non-empty. The profile issues come first. |
| Validation.OptionalBetween | lib/validation.ts:14-20 | An optional length-bounded field has no issue iff it is absent or its length lies in the bounds. |
| QuestionForm.Trim | components/forms/Question.tsx:113 | The result is the slice between leading and trailing whitespace, and it neither starts nor ends with whitespace. |
| QuestionForm.KeyDown | components/forms/Question.tsx:105-131 | A key press either leaves the tags as they are or appends exactly the trimmed entry. It appends only an entry of 1..15 characters that is not already a tag. |
| QuestionForm.KeyDownEffect | components/forms/Question.tsx:105-131 | Only Enter on the tags field acts. An empty or present tag changes nothing. An overlong one sets the too-long error and keeps the tags and the typed text. Otherwise the trimmed tag is appended, iff it has 1..15 characters and is new. An append clears the box and the error. |
| QuestionForm.KeyDownKeepsNoDup | components/forms/Question.tsx:122-126 | A duplicate-free list stays duplicate-free. |
| QuestionForm.KeyDownKeepsTagLengths | components/forms/Question.tsx:116-126 | Every tag in the list keeps 1..15 characters. |
| QuestionForm.RemoveTag | components/forms/Question.tsx:133-136 | The tag is gone, and every other tag's membership is kept. |
| QuestionForm.RemoveUndoesAdd | components/forms/Question.tsx:122-136 | Removing a just-added tag restores the list. |
| QuestionForm.RemoveKeepsOrder | components/forms/Question.tsx:133-136 | Removal keeps the other tags in order. |
| ParseHtml.ConvertEditorJsToHtml | components/shared/ParseHtml.tsx:39-68 | Falsy content gives "". Unparsable text is returned as it is. A parsed or given document renders its blocks, with missing blocks giving "". |
| ParseHtml.JoinAppend | components/shared/ParseHtml.tsx:48-63 | Rendering concatenated blocks is concatenating their renderings. |
| ParseHtml.UnknownBlocksVanish | components/shared/ParseHtml.tsx:60-61 | Blocks of unknown type leave no trace. |
| ParseHtml.CaptionShown | components/shared/ParseHtml.tsx:54-58 | A non-empty caption appears inside a `figcaption` element. |
| ParseHtml.NoCaptionNotShown | components/shared/ParseHtml.tsx:54-58 | Without a caption no `figcaption` element appears. |

## Left out

- **Infrastructure.** Database errors, connection failures, `revalidatePath`,
  console output and concurrency are not modelled. The actions are taken to run
  one at a time.
- **Tag resolution in `createQuestion`** runs sequentially. The concurrency of
  `Promise.all` is not modelled.
- **Inputs that stand in for outside code.** These become parameters:
  - the clock (`Utils.TimeStamp` takes the elapsed milliseconds);
  - `JSON.parse` (`ParseHtml`);
  - zod's e-mail and URL checks (`Validation`);
  - the `BADGE_CRITERIA` thresholds (`Utils.AssignBadges`);
  - the `user` table joined by the message queries (`MessageActions`, the
    `accounts` set).
- **Ids.** Ids are integers. The string/number conversions between the pages
  and the actions are not modelled. One counter (`Schema.Store.nextId`) hands
  out the ids of every table, where PostgreSQL keeps one serial sequence per
  table, so ids never repeat across tables in the model. No stated property
  depends on this.
- **Sort ties.** The order of rows that tie under a sort key is whatever a
  stable sort gives. PostgreSQL does not promise it.
- **`ilike`** is modelled with ASCII case folding only.
- **`LIKE` wildcards.** The actions put the user's text into `LIKE`/`ILIKE`
  patterns unescaped (for example `lib/actions/question.action.ts:41-42` and
  `:115`, `lib/actions/tag.actions.ts:93` and `:155`,
  `lib/actions/user.action.ts:111-112` and `:192`), so `%`, `_` and `\` in it
  act as wildcards and escapes. The model treats them as ordinary characters
  and tests for the text as a substring. For example, a new tag "react_native"
  would reuse an existing "react-native" tag at
  `lib/actions/question.action.ts:115`, while the model creates a new tag.
- **Lengths** count characters, not UTF-16 code units.
- **SQL the database would reject** is modelled by its evident meaning:
  - columns named `questions.author`, `answers.author` and `answers.question`;
  - `interactions.user` (`lib/actions/tag.actions.ts:29`), which Drizzle does
    not define because the field is `userId` (`db/schema.ts:88`); the model
    reads it as the user id;
  - the missing `questions` join in the "popular" tag sort;
  - `inArray(questionTags.tagId, ...)` in `getRecommendedQuestions`
    (`lib/actions/question.action.ts:385-388`), whose query selects from
    `questions` alone (lines 397-400), so PostgreSQL would report a missing
    FROM entry. The model reads it as "some link of the question has a
    candidate tag" (an `EXISTS` over `question_tags`). With no candidate
    tags the list given to `inArray` is empty.
- **`inArray` with an empty list.** Depending on the Drizzle version, an empty
  list throws or yields `false`; the model takes "no match" wherever it occurs:
  - the candidate tags of `getRecommendedQuestions`
    (`lib/actions/question.action.ts:385-388`);
  - the saved ids of a user with none in `getSavedQuestions`
    (`lib/actions/user.action.ts:191`), which then returns an empty page;
  - the ranked tag ids in `getTopInteractedTags` when no interaction carries
    a tag (`lib/actions/tag.actions.ts:57`), which then returns no tags.
- AnswerActions.CreateAnswer: the update at `lib/actions/answer.action.ts:36`
  writes `array_append(answers, id)`, an integer array, into the integer
  column `answersCount` (`db/schema.ts:46`). PostgreSQL rejects it, so as
  written the action throws after the insert: no interaction is logged and no
  reputation is added. The model appends the id to the question's `answers`
  array and carries on.
- AnswerActions.DeleteAnswer: the same mismatch at
  `lib/actions/answer.action.ts:268` (`array_remove` into `answersCount`) makes
  the action throw after the delete, leaving the answer's interactions in
  place. The model removes the id from `answers` and deletes the interactions.
- TagActions.GetTopInteractedTags: `lib/actions/tag.actions.ts:27-38` selects
  `interactions.action`, a text column holding words such as "view"
  (`db/schema.ts:91`), and `JSON.parse`s it, which throws for those words. The
  model reads each interaction's tag list instead.
- **Constraints of `db/schema.ts`.** The model checks no `NOT NULL` or foreign
  key constraint; each action below follows its evident meaning. Under that
  schema as written:
  - `createQuestion` always fails at its insert
    (`lib/actions/question.action.ts:96-103`), which gives no `tag_id`, a
    `NOT NULL` column without a default (`db/schema.ts:53-55`);
  - `deleteQuestion` deletes the question first
    (`lib/actions/question.action.ts:299`), while its answers, its
    `question_tags` rows and its interactions still refer to it
    (`db/schema.ts:61`, `:75`, `:94`) and no reference has `ON DELETE`, so it
    fails whenever such rows exist. It never deletes the `question_tags` rows,
    so those references are always there once the question has tags;
  - `deleteAnswer` deletes the answer (`lib/actions/answer.action.ts:265`)
    before the interactions that refer to it (`db/schema.ts:95`);
  - `deleteUser` deletes the user's questions, answers and row
    (`lib/actions/user.action.ts:81-83`) while other rows may still refer to
    them, and never deletes the user's interactions (`db/schema.ts:88`).

  The schema file is evidently not the deployed one: it declares no `messages`
  table and no `users.savedQuestions` column, both of which the actions use.
  The model takes from it only the column names, the defaults of the columns
  an insert leaves out, and the serial ids.
- TagActions.TagOrder: the default sort orders names by code point, not by
  the database's collation.
- **Not modelled** (they are outside the modelled core):
  - `getQuestionById`, `updateQuestion`, `getHotQuestions`, `getPopularTags`;
  - `sendMessage`, `sendReply`;
  - `getUserById`, `createUser`, `updateUser`, `getUserInfo`;
  - the job actions;
  - the rest of the question form.
- AnswerActions.GetAnswers: `orderBy(sortColumn, sql\`${sortOrder}\`)` sends the
  direction as a bound value, which sorts nothing. The rows are therefore
  ordered ascending by the sort column for every `sortBy`, and the model
  follows that. Ties are kept in table order.
- QuestionActions.GetQuestions: under "unanswered" the filter's `where`
  replaces the search clause. The total still counts the search only, as
  written.
- UserActions.GetUserQuestions: the tag join compares the tag id with the
  question's view count, as written. The joined tag is therefore not stated.
- TagActions.GetTopInteractedTags: the final select returns the tag rows in
  table order, not by count.
- TagActions.GetQuestionByTagId: PostgreSQL sorts rows without a question
  first under `DESC`, and the model follows that.
- MessageActions.CounterpartsCovered: states coverage only for counterparts
  other than the user. As written, a message to oneself is kept only while no
  conversation has been kept yet.
- MessageActions.UnreadCount: the path where a database error returns 0 is not
  modelled.
- MessageActions.MarkAsRead: `markAsRead` swallows database errors, and that is
  not modelled.
- QuestionForm.Trim: covers ASCII whitespace and the no-break space, not every
  Unicode space that `String.prototype.trim` strips.
- QuestionForm.KeyDownEffect: `form.trigger()`'s re-validation is not modelled.
- ParseHtml.ConvertEditorJsToHtml: a block whose fields are missing would throw
  inside the `map`. Such blocks are not modelled. The `parse` parameter answers
  None both when `JSON.parse` throws and when it yields `null` (the text
  "null"). In the second case reading `data.blocks` throws inside the same
  `try`, so both cases return the text itself.
- ParseHtml.NoCaptionNotShown: assumes the image URL contains no `<`.
- Validation.SignUpIssues: the `refine` runs even when a length check failed,
  as zod does for a form with well-typed fields.

## Findings

| source | as written | input that shows it | evidently intended | confidence | as-written member | corrected member |
|---|---|---|---|---|---|---|
| lib/actions/user.action.ts:136-150 | `toggleSaveQuestion` writes `savedQuestions` as `JSON.stringify(...)` text but reads it back with `Array.isArray`, which is false for text, so every stored list reads as empty | a user with no saved questions toggles question 7 twice: the stored list is `[7]` after both; toggling 8 after 7 stores `[8]` | read the stored list as `getSavedQuestions` does (parse the text), so a toggle flips membership and keeps the other ids | not executed | UserActions.ToggleAsWrittenDoesNotUndo | UserActions.ToggleTwice |
