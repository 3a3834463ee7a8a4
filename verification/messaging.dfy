/** The messaging gate and conversation history
    (controllers/messageController.js). */
module Messaging {
  import opened Values
  import opened Seqs
  import opened Models
  import opened Db
  import opened Tokens
  import opened Http

  /** The message is between `a` and `b`, sent by either of them. */
  predicate InConversation(a: Id, b: Id, m: Message) {
    (m.sender == a && m.receiver == b) || (m.sender == b && m.receiver == a)
  }

  /** Ascending by `createdAt`. */
  ghost predicate ByTime(ms: seq<Message>) {
    forall i, j :: 0 <= i < j < |ms| ==> ms[i].createdAt <= ms[j].createdAt
  }

  /** The messages of `ms` stamped `t`, in their order in `ms`. */
  function Stamped(ms: seq<Message>, t: int): seq<Message> {
    if |ms| == 0 then []
    else (if ms[0].createdAt == t then [ms[0]] else []) + Stamped(ms[1..], t)
  }

  /** The tail of a time-ordered history is time-ordered, and no message in
      it is earlier than the head. */
  lemma ByTimeTail(ms: seq<Message>)
    requires |ms| > 0 && ByTime(ms)
    ensures ByTime(ms[1..])
    ensures forall x :: x in ms[1..] ==> ms[0].createdAt <= x.createdAt
  {
  }

  /** A message no later than any message of a time-ordered history can be
      put in front of it. */
  lemma ByTimeCons(x: Message, ms: seq<Message>)
    requires ByTime(ms)
    requires forall y :: y in ms ==> x.createdAt <= y.createdAt
    ensures ByTime([x] + ms)
  {
    forall i, j | 0 <= i < j < |[x] + ms| ensures ([x] + ms)[i].createdAt <= ([x] + ms)[j].createdAt {
      assert ([x] + ms)[j] == ms[j - 1];
      if i > 0 {
        assert ([x] + ms)[i] == ms[i - 1];
      }
    }
  }

  /** A lower bound of a history and of `m` bounds the history with `m`
      inserted. */
  lemma InsertLowerBound(h: Message, m: Message, tail: seq<Message>, rest: seq<Message>)
    requires multiset(rest) == multiset(tail) + multiset{m}
    requires h.createdAt <= m.createdAt
    requires forall y :: y in tail ==> h.createdAt <= y.createdAt
    ensures forall y :: y in rest ==> h.createdAt <= y.createdAt
  {
    forall y | y in rest ensures h.createdAt <= y.createdAt {
      assert y in multiset(rest);
      if y != m {
        assert y in multiset(tail);
      }
    }
  }

  /** Places `m` into a history already in time order, after every message
      strictly earlier than it and before the rest. */
  function InsertByTime(m: Message, ms: seq<Message>): (r: seq<Message>)
    requires ByTime(ms)
    ensures ByTime(r)
    ensures multiset(r) == multiset(ms) + multiset{m}
  {
    if |ms| == 0 then [m]
    else if m.createdAt <= ms[0].createdAt then
      ByTimeTail(ms);
      ByTimeCons(m, ms);
      [m] + ms
    else
      ByTimeTail(ms);
      var rest := InsertByTime(m, ms[1..]);
      InsertLowerBound(ms[0], m, ms[1..], rest);
      ByTimeCons(ms[0], rest);
      assert ms == [ms[0]] + ms[1..];
      [ms[0]] + rest
  }

  /** `.sort({ createdAt: 1 })`: the same messages, in time order. The sort
      is stable: messages with equal timestamps keep their store order. */
  function SortByTime(ms: seq<Message>): (r: seq<Message>)
    ensures ByTime(r)
    ensures multiset(r) == multiset(ms)
  {
    if |ms| == 0 then []
    else
      assert ms == [ms[0]] + ms[1..];
      InsertByTime(ms[0], SortByTime(ms[1..]))
  }

  /** `Stamped` of a history with one message put in front. */
  lemma StampedCons(x: Message, ms: seq<Message>, t: int)
    ensures Stamped([x] + ms, t) == (if x.createdAt == t then [x] else []) + Stamped(ms, t)
  {
    assert ([x] + ms)[1..] == ms;
  }

  /** The step of `InsertByTimeKeepsTies` past a strictly earlier head: the
      head is not stamped like `m` whenever `m` itself counts. */
  lemma StampedPastHead(m: Message, ms: seq<Message>, rest: seq<Message>, t: int)
    requires |ms| > 0 && ms[0].createdAt < m.createdAt
    requires Stamped(rest, t) == (if m.createdAt == t then [m] else []) + Stamped(ms[1..], t)
    ensures Stamped([ms[0]] + rest, t) == (if m.createdAt == t then [m] else []) + Stamped(ms, t)
  {
    StampedCons(ms[0], rest, t);
  }

  /** Inserting `m` adds it in front of the messages stamped like it and
      leaves the order of every timestamp's messages alone. */
  lemma {:induction false} InsertByTimeKeepsTies(m: Message, ms: seq<Message>, t: int)
    requires ByTime(ms)
    ensures Stamped(InsertByTime(m, ms), t) == (if m.createdAt == t then [m] else []) + Stamped(ms, t)
  {
    if |ms| == 0 {
      StampedCons(m, [], t);
    } else if m.createdAt <= ms[0].createdAt {
      StampedCons(m, ms, t);
    } else {
      ByTimeTail(ms);
      InsertByTimeKeepsTies(m, ms[1..], t);
      StampedPastHead(m, ms, InsertByTime(m, ms[1..]), t);
    }
  }

  /** The sort is stable: for every timestamp, the messages stamped with it
      come out in their store order. */
  lemma {:induction false} SortByTimeIsStable(ms: seq<Message>, t: int)
    ensures Stamped(SortByTime(ms), t) == Stamped(ms, t)
  {
    if |ms| > 0 {
      SortByTimeIsStable(ms[1..], t);
      InsertByTimeKeepsTies(ms[0], SortByTime(ms[1..]), t);
    }
  }

  /** POST /messages: `senderId` writes `content` to `receiverId`. Missing
      fields give 400; without an accepted edge between the two, in either
      direction, 403; otherwise the message is stored unread with the clock
      reading `now` and echoed with 201. Edges and users are untouched. */
  function SendMessage(s: Store, senderId: Field, receiverId: Field, content: Field, now: int): (r: Step)
    ensures r.cookie == Keep
    ensures r.status == 400 <==> !Present(senderId) || !Present(receiverId) || !Present(content)
    ensures r.status == 403 <==> (Present(senderId) && Present(receiverId) && Present(content)
      && !CanMessage(s.edges, senderId.value, receiverId.value))
    ensures r.status in {400, 403} ==> r.store == s && r.body == Note
    ensures r.status !in {400, 403} ==> (r.status == 201
      && r.body.MessageBody?
      && r.body.message == Message(senderId.value, receiverId.value, content.value, false, now)
      && r.store == s.(messages := s.messages + [r.body.message]))
  {
    if !Present(senderId) || !Present(receiverId) || !Present(content) then Reply(400, Note, s)
    else
      var a, b := senderId.value, receiverId.value;
      var gate := FindFirst(s.edges, e => Links(e, a, b) && e.status == Accepted);
      if gate.None? then Reply(403, Note, s)
      else
        var m := NewMessage(a, b, content.value, now);
        Reply(201, MessageBody(m), s.(messages := s.messages + [m]))
  }

  /** GET /messages?userId&friendId: every message between the two users,
      either way round, oldest first. An empty history answers 200 with a
      message object instead of a list. */
  function GetMessages(s: Store, userId: Field, friendId: Field): (r: Step)
    ensures r.store == s && r.cookie == Keep
    ensures r.status == 400 <==> !Present(userId) || !Present(friendId)
    ensures r.status != 400 ==> r.status == 200
    ensures r.status == 200 ==> (r.body == Note || r.body.MessageList?)
    ensures r.status == 200 && r.body.MessageList? ==> (
      && |r.body.messages| > 0
      && ByTime(r.body.messages)
      && forall m :: multiset(r.body.messages)[m] ==
           if InConversation(userId.value, friendId.value, m) then multiset(s.messages)[m] else 0)
    ensures r.status == 200 && r.body == Note ==>
      forall i :: 0 <= i < |s.messages| ==> !InConversation(userId.value, friendId.value, s.messages[i])
  {
    if !Present(userId) || !Present(friendId) then Reply(400, Note, s)
    else
      var a, b := userId.value, friendId.value;
      var found := Filter(s.messages, m => InConversation(a, b, m));
      var history := SortByTime(found);
      if |history| == 0 then
        assert forall i :: 0 <= i < |s.messages| ==> !InConversation(a, b, s.messages[i]) by {
          forall i | 0 <= i < |s.messages| ensures !InConversation(a, b, s.messages[i]) {
            assert s.messages[i] in multiset(s.messages);
            assert multiset(history) == multiset{};
          }
        }
        Reply(200, Note, s)
      else Reply(200, MessageList(history), s)
  }

  // ----- properties -----

  /** The history asked for from either side is the same response. */
  lemma GetMessagesSymmetric(s: Store, a: Id, b: Id)
    ensures GetMessages(s, Some(a), Some(b)) == GetMessages(s, Some(b), Some(a))
  {
    FilterCongruent(s.messages, m => InConversation(a, b, m), m => InConversation(b, a, m));
  }

  /** The gate treats the two parties alike: swapping sender and receiver
      does not change whether a message is refused with 403. */
  lemma SendMessageGateSymmetric(s: Store, a: Id, b: Id, content: Field, now: int)
    ensures SendMessage(s, Some(a), Some(b), content, now).status == 403
        <==> SendMessage(s, Some(b), Some(a), content, now).status == 403
  {
  }

  /** A pending or rejected edge does not open the gate. */
  lemma OnlyAcceptedOpensGate(s: Store, fold: string -> string, i: nat, content: string, now: int)
    requires Valid(s, fold)
    requires i < |s.edges| && s.edges[i].status != Accepted
    requires s.edges[i].requester != "" && s.edges[i].recipient != "" && content != ""
    ensures SendMessage(s, Some(s.edges[i].requester), Some(s.edges[i].recipient), Some(content), now).status == 403
  {
  }

  /** A message that was sent shows up in the history of its two parties. */
  lemma SentMessageIsListed(s: Store, a: Id, b: Id, content: Field, now: int)
    requires SendMessage(s, Some(a), Some(b), content, now).status == 201
    ensures var r := SendMessage(s, Some(a), Some(b), content, now);
      var h := GetMessages(r.store, Some(b), Some(a));
      h.body.MessageList? && r.body.message in h.body.messages
  {
    var r := SendMessage(s, Some(a), Some(b), content, now);
    var m := r.body.message;
    assert r.store.messages[|s.messages|] == m;
    assert multiset(r.store.messages)[m] > 0;
    var h := GetMessages(r.store, Some(b), Some(a));
    assert InConversation(b, a, m);
    assert h.body != Note;
    assert multiset(h.body.messages)[m] > 0;
  }

  lemma SendMessageKeepsValid(s: Store, fold: string -> string, a: Field, b: Field, c: Field, now: int)
    requires Valid(s, fold)
    ensures Valid(SendMessage(s, a, b, c, now).store, fold)
  {
  }
}
