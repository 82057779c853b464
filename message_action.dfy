/**
 * Direct messages: the conversation list (the newest message per counterpart),
 * the thread between two users, the unread counter, marking as read and deleting.
 *
 * The `user` accounts table the message queries inner-join with is not part of
 * this model; its ids are the `accounts` parameter.
 */
module MessageActions {
  import opened Wrappers
  import opened Seqs
  import opened Ordering
  import opened Schema

  /** `ORDER BY created_at DESC`. */
  const NewestMessageFirst := (a: Message, b: Message) => a.createdAt >= b.createdAt
  /** `ORDER BY created_at` (ascending). */
  const OldestMessageFirst := (a: Message, b: Message) => a.createdAt <= b.createdAt

  lemma MessageOrdersAreOrders()
    ensures Total(NewestMessageFirst) && Transitive(NewestMessageFirst)
    ensures Total(OldestMessageFirst) && Transitive(OldestMessageFirst)
  {
  }

  /** Both inner joins find their row: the sender and the receiver have accounts. */
  predicate Joined(m: Message, accounts: set<int>) {
    m.senderId in accounts && m.receiverId in accounts
  }

  /** `x` takes part in `m`, as sender or as receiver. */
  predicate Involves(m: Message, x: int) {
    m.senderId == x || m.receiverId == x
  }

  /** The `WHERE` and joins of `getConversations`: a message of the user with both accounts present. */
  function InInbox(accounts: set<int>, userId: int): Message -> bool {
    (m: Message) => Involves(m, userId) && Joined(m, accounts)
  }

  /**
   * The rows `getConversations` reads: the user's messages, newest first, each row
   * as often as the table holds it.
   */
  function Inbox(messages: seq<Message>, accounts: set<int>, userId: int): (r: seq<Message>)
    ensures forall m :: m in r <==> m in messages && Involves(m, userId) && Joined(m, accounts)
    ensures multiset(r) == multiset(Filter(messages, InInbox(accounts, userId)))
    ensures |r| <= |messages|
    ensures SortedBy(r, NewestMessageFirst)
  {
    var rows := Filter(messages, InInbox(accounts, userId));
    SortByMembers(rows, NewestMessageFirst);
    MessageOrdersAreOrders();
    SortBySorted(rows, NewestMessageFirst);
    SortBy(rows, NewestMessageFirst)
  }

  /** The other party of a message: its receiver when the user sent it, else its sender. */
  function Counterpart(m: Message, userId: int): (x: int)
    ensures Involves(m, x)
  {
    if m.senderId == userId then m.receiverId else m.senderId
  }

  /** Some kept message has `x` as its sender or its receiver: the `acc.find` test. */
  predicate Taken(acc: seq<Message>, x: int) {
    exists c :: c in acc && Involves(c, x)
  }

  /**
   * The accumulator of the `reduce`: a message is pushed unless a message already
   * kept has its counterpart as sender or receiver.
   */
  function LatestPerCounterpart(ms: seq<Message>, userId: int): seq<Message>
    decreases |ms|
  {
    if |ms| == 0 then []
    else
      var acc := LatestPerCounterpart(ms[..|ms| - 1], userId);
      var m := ms[|ms| - 1];
      if Taken(acc, Counterpart(m, userId)) then acc else acc + [m]
  }

  /**
   * `idx` places every kept message at a position of `ms`, in increasing order,
   * and no earlier message of `ms` has the same counterpart.
   */
  predicate Positions(idx: seq<int>, acc: seq<Message>, ms: seq<Message>, userId: int) {
    && |idx| == |acc|
    && (forall k :: 0 <= k < |idx| ==> 0 <= idx[k] < |ms| && ms[idx[k]] == acc[k])
    && (forall k, l :: 0 <= k < l < |idx| ==> idx[k] < idx[l])
    && (forall k, l :: 0 <= k < |idx| && 0 <= l < idx[k] ==>
          Counterpart(ms[l], userId) != Counterpart(acc[k], userId))
  }

  /** `acc` is a subsequence of `ms` made of first occurrences of counterparts. */
  ghost predicate FirstsInOrder(acc: seq<Message>, ms: seq<Message>, userId: int) {
    exists idx :: Positions(idx, acc, ms, userId)
  }

  /** After the reduce, the counterpart of every input message is taken. */
  lemma {:induction false} AllCounterpartsTaken(ms: seq<Message>, userId: int)
    ensures forall l :: 0 <= l < |ms| ==> Taken(LatestPerCounterpart(ms, userId), Counterpart(ms[l], userId))
  {
    if |ms| > 0 {
      var front := ms[..|ms| - 1];
      var m := ms[|ms| - 1];
      var acc := LatestPerCounterpart(front, userId);
      AllCounterpartsTaken(front, userId);
      var r := LatestPerCounterpart(ms, userId);
      assert forall c :: c in acc ==> c in r;
      forall l | 0 <= l < |ms| ensures Taken(r, Counterpart(ms[l], userId)) {
        if l < |ms| - 1 {
          assert ms[l] == front[l];
          assert Taken(acc, Counterpart(front[l], userId));
        } else if !Taken(acc, Counterpart(m, userId)) {
          assert m in r && Involves(m, Counterpart(m, userId));
        }
      }
    }
  }

  /**
   * The conversation list keeps input order, and each kept message is the first
   * input message with its counterpart.
   */
  lemma {:induction false} LatestAreFirsts(ms: seq<Message>, userId: int)
    ensures FirstsInOrder(LatestPerCounterpart(ms, userId), ms, userId)
  {
    if |ms| == 0 {
      assert Positions([], [], ms, userId);
    } else {
      var front := ms[..|ms| - 1];
      var m := ms[|ms| - 1];
      var acc := LatestPerCounterpart(front, userId);
      LatestAreFirsts(front, userId);
      var idx :| Positions(idx, acc, front, userId);
      assert forall l :: 0 <= l < |front| ==> ms[l] == front[l];
      if Taken(acc, Counterpart(m, userId)) {
        assert Positions(idx, acc, ms, userId);
      } else {
        PositionsExtend(idx, acc, ms, userId);
      }
    }
  }

  /** A message whose counterpart nothing before it has extends the positions by its own. */
  lemma PositionsExtend(idx: seq<int>, acc: seq<Message>, ms: seq<Message>, userId: int)
    requires |ms| > 0
    requires Positions(idx, acc, ms[..|ms| - 1], userId)
    requires acc == LatestPerCounterpart(ms[..|ms| - 1], userId)
    requires !Taken(acc, Counterpart(ms[|ms| - 1], userId))
    ensures Positions(idx + [|ms| - 1], acc + [ms[|ms| - 1]], ms, userId)
  {
    var front := ms[..|ms| - 1];
    var m := ms[|ms| - 1];
    AllCounterpartsTaken(front, userId);
    var idx' := idx + [|ms| - 1];
    var acc' := acc + [m];
    forall k, l | 0 <= k < |idx'| && 0 <= l < idx'[k]
      ensures Counterpart(ms[l], userId) != Counterpart(acc'[k], userId)
    {
      assert ms[l] == front[l];
      if k == |idx| {
        assert Taken(acc, Counterpart(front[l], userId));
      } else {
        assert acc'[k] == acc[k];
      }
    }
  }

  /** Every kept message comes from the input. */
  lemma {:induction false} KeptFromInput(ms: seq<Message>, userId: int)
    ensures forall c :: c in LatestPerCounterpart(ms, userId) ==> c in ms
  {
    if |ms| > 0 {
      KeptFromInput(ms[..|ms| - 1], userId);
      assert forall c :: c in ms[..|ms| - 1] ==> c in ms;
    }
  }

  /** No two conversations share a counterpart. */
  lemma CounterpartsDistinct(ms: seq<Message>, userId: int)
    ensures var acc := LatestPerCounterpart(ms, userId);
            forall i, j :: 0 <= i < j < |acc| ==> Counterpart(acc[i], userId) != Counterpart(acc[j], userId)
  {
    var acc := LatestPerCounterpart(ms, userId);
    LatestAreFirsts(ms, userId);
    var idx :| Positions(idx, acc, ms, userId);
    forall i, j | 0 <= i < j < |acc| ensures Counterpart(acc[i], userId) != Counterpart(acc[j], userId) {
      assert idx[i] < idx[j];
      assert ms[idx[i]] == acc[i];
    }
  }

  /**
   * When every input message involves the user, every counterpart other than the
   * user themself has a conversation. (A message to oneself is kept only while
   * nothing has been kept yet: the user is sender or receiver of every kept message.)
   */
  lemma CounterpartsCovered(ms: seq<Message>, userId: int)
    requires forall m :: m in ms ==> Involves(m, userId)
    ensures var acc := LatestPerCounterpart(ms, userId);
            forall m :: m in ms && Counterpart(m, userId) != userId ==>
              exists c :: c in acc && Counterpart(c, userId) == Counterpart(m, userId)
  {
    var acc := LatestPerCounterpart(ms, userId);
    AllCounterpartsTaken(ms, userId);
    KeptFromInput(ms, userId);
    forall m | m in ms && Counterpart(m, userId) != userId
      ensures exists c :: c in acc && Counterpart(c, userId) == Counterpart(m, userId)
    {
      var l :| 0 <= l < |ms| && ms[l] == m;
      var c :| c in acc && Involves(c, Counterpart(ms[l], userId));
      assert Involves(c, userId);
      assert Counterpart(c, userId) == Counterpart(m, userId);
    }
  }

  /** The `acc.find` of the reduce: a kept message with `x` as its sender or receiver. */
  function FindInvolving(acc: seq<Message>, x: int): (r: Option<Message>)
    ensures r.None? <==> !Taken(acc, x)
  {
    var r := FindFirst(acc, (c: Message) => c.senderId == x || c.receiverId == x);
    assert r.Some? ==> r.value in acc && Involves(r.value, x);
    r
  }

  /** One more message of the reduce. */
  lemma ReduceStep(ms: seq<Message>, i: int, userId: int)
    requires 0 <= i < |ms|
    ensures var acc := LatestPerCounterpart(ms[..i], userId);
            LatestPerCounterpart(ms[..i + 1], userId) ==
              if Taken(acc, Counterpart(ms[i], userId)) then acc else acc + [ms[i]]
  {
    assert ms[..i + 1][..i] == ms[..i];
  }

  /** `getConversations`: the user's newest message with each counterpart, newest first. */
  method GetConversations(db: Store, accounts: set<int>, userId: int) returns (convs: seq<Message>)
    ensures convs == LatestPerCounterpart(Inbox(db.messages, accounts, userId), userId)
  {
    var inbox := Inbox(db.messages, accounts, userId);
    convs := [];
    var i := 0;
    while i < |inbox|
      invariant 0 <= i <= |inbox|
      invariant convs == LatestPerCounterpart(inbox[..i], userId)
    {
      var m := inbox[i];
      var other := if m.senderId == userId then m.receiverId else m.senderId;
      ReduceStep(inbox, i, userId);
      var existing := FindInvolving(convs, other);
      if existing.None? {
        convs := convs + [m];
      }
      i := i + 1;
    }
    assert inbox[..i] == inbox;
  }

  /** The conversation list of `getConversations` has the properties its comment promises. */
  lemma ConversationsSpec(messages: seq<Message>, accounts: set<int>, userId: int)
    ensures var inbox := Inbox(messages, accounts, userId);
            var convs := LatestPerCounterpart(inbox, userId);
            && FirstsInOrder(convs, inbox, userId)
            && (forall c :: c in convs ==> c in messages && Involves(c, userId))
            && (forall i, j :: 0 <= i < j < |convs| ==> Counterpart(convs[i], userId) != Counterpart(convs[j], userId))
            && (forall m :: m in inbox && Counterpart(m, userId) != userId ==>
                  exists c :: c in convs && Counterpart(c, userId) == Counterpart(m, userId))
  {
    var inbox := Inbox(messages, accounts, userId);
    var convs := LatestPerCounterpart(inbox, userId);
    LatestAreFirsts(inbox, userId);
    KeptFromInput(inbox, userId);
    CounterpartsDistinct(inbox, userId);
    CounterpartsCovered(inbox, userId);
  }

  predicate Between(m: Message, userId: int, otherUserId: int) {
    (m.senderId == userId && m.receiverId == otherUserId) || (m.senderId == otherUserId && m.receiverId == userId)
  }

  /** The `WHERE` and joins of `getMessagesBetweenUsers`. */
  function InThread(accounts: set<int>, userId: int, otherUserId: int): Message -> bool {
    (m: Message) => Between(m, userId, otherUserId) && Joined(m, accounts)
  }

  /**
   * `getMessagesBetweenUsers`: the thread between two users, oldest first, each row
   * as often as the table holds it.
   */
  function MessagesBetween(messages: seq<Message>, accounts: set<int>, userId: int, otherUserId: int): (r: seq<Message>)
    ensures forall m :: m in r <==>
      && m in messages && Joined(m, accounts)
      && ((m.senderId == userId && m.receiverId == otherUserId) || (m.senderId == otherUserId && m.receiverId == userId))
    ensures multiset(r) == multiset(Filter(messages, InThread(accounts, userId, otherUserId)))
    ensures SortedBy(r, OldestMessageFirst)
  {
    var rows := Filter(messages, InThread(accounts, userId, otherUserId));
    SortByMembers(rows, OldestMessageFirst);
    MessageOrdersAreOrders();
    SortBySorted(rows, OldestMessageFirst);
    SortBy(rows, OldestMessageFirst)
  }

  /** Both participants see the same thread. */
  lemma ThreadIsSymmetric(messages: seq<Message>, accounts: set<int>, userId: int, otherUserId: int)
    ensures MessagesBetween(messages, accounts, userId, otherUserId) == MessagesBetween(messages, accounts, otherUserId, userId)
  {
    FilterSame(messages, InThread(accounts, userId, otherUserId), InThread(accounts, otherUserId, userId));
  }

  predicate UnreadBy(m: Message, userId: int) {
    m.receiverId == userId && !m.read
  }

  /**
   * `getUnreadCount`: `count(*)` of the unread messages the user received, counted
   * row by row. It agrees with the length of the filtered table.
   */
  function UnreadCount(messages: seq<Message>, userId: int): (n: nat)
    ensures n <= |messages|
    ensures n == 0 <==> forall m :: m in messages ==> !(m.receiverId == userId && !m.read)
    ensures n == |Filter(messages, (m: Message) => UnreadBy(m, userId))|
  {
    if |messages| == 0 then 0
    else
      assert forall m :: m in messages ==> m == messages[0] || m in messages[1..];
      (if UnreadBy(messages[0], userId) then 1 else 0) + UnreadCount(messages[1..], userId)
  }

  /** `UPDATE messages SET read = true WHERE id IN ids`. */
  function MarkRead(messages: seq<Message>, ids: seq<int>): (r: seq<Message>)
    ensures |r| == |messages|
    ensures forall i :: 0 <= i < |messages| ==>
      r[i] == if messages[i].id in ids then messages[i].(read := true) else messages[i]
  {
    MapWhere(messages, (m: Message) => m.id in ids, (m: Message) => m.(read := true))
  }

  /** After marking, a user's unread messages are exactly those whose ids were not listed. */
  lemma {:induction false} UnreadAfterMark(messages: seq<Message>, ids: seq<int>, userId: int)
    ensures UnreadCount(MarkRead(messages, ids), userId)
         == |Filter(messages, (m: Message) => UnreadBy(m, userId) && m.id !in ids)|
  {
    if |messages| > 0 {
      UnreadAfterMark(messages[1..], ids, userId);
      assert MarkRead(messages, ids)[1..] == MarkRead(messages[1..], ids);
    }
  }

  /** Listing the ids of all of a user's unread messages brings their count to zero. */
  lemma MarkAllRead(messages: seq<Message>, ids: seq<int>, userId: int)
    requires forall m :: m in messages && UnreadBy(m, userId) ==> m.id in ids
    ensures UnreadCount(MarkRead(messages, ids), userId) == 0
  {
    UnreadAfterMark(messages, ids, userId);
    FilterNone(messages, (m: Message) => UnreadBy(m, userId) && m.id !in ids);
  }

  /** Marking the same ids twice changes nothing more. */
  lemma MarkReadIdempotent(messages: seq<Message>, ids: seq<int>)
    ensures MarkRead(MarkRead(messages, ids), ids) == MarkRead(messages, ids)
  {
  }

  /** `markAsRead`. */
  method MarkAsRead(db: Store, ids: seq<int>)
    requires db.Valid()
    modifies db`messages
    ensures db.Valid()
    ensures db.messages == MarkRead(old(db.messages), ids)
  {
    db.messages := MapWhere(db.messages, (m: Message) => m.id in ids, (m: Message) => m.(read := true));
  }

  /** `DELETE FROM messages WHERE id = messageId`. */
  function DeleteById(messages: seq<Message>, messageId: int): (r: seq<Message>)
    ensures forall m :: m in r <==> m in messages && m.id != messageId
  {
    Filter(messages, (m: Message) => m.id != messageId)
  }

  /** Deleting an id no message has leaves the table as it was. */
  lemma DeleteAbsent(messages: seq<Message>, messageId: int)
    requires forall m :: m in messages ==> m.id != messageId
    ensures DeleteById(messages, messageId) == messages
  {
    FilterAll(messages, (m: Message) => m.id != messageId);
  }

  /** `deleteMessage`: removes the message with that id and reports success. */
  method DeleteMessage(db: Store, messageId: int) returns (r: Outcome)
    requires db.Valid()
    modifies db`messages
    ensures db.Valid()
    ensures r == Pass
    ensures db.messages == DeleteById(old(db.messages), messageId)
  {
    db.messages := Filter(db.messages, (m: Message) => m.id != messageId);
    r := Pass;
  }
}
