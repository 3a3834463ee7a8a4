/** The friendship state machine: sending and accepting requests, and the
    two friend queries (controllers/friendsController.js). */
module Friends {
  import opened Values
  import opened Seqs
  import opened Models
  import opened Db
  import opened Tokens
  import opened Http

  /** The pending requests addressed to `u`. */
  predicate InboxOf(u: Id, e: Friendship) {
    e.recipient == u && e.status == Pending
  }

  /** GET /friends/requests/:userId: the pending edges whose recipient is
      `userId`, in store order (an empty list is still a 200). */
  function GetFriendRequests(s: Store, userId: Field): (r: Step)
    ensures r.store == s && r.cookie == Keep
    ensures r.status == 400 <==> !Present(userId)
    ensures r.status != 400 ==> r.status == 200 && r.body.EdgeList?
    ensures r.status == 200 ==> forall e :: e in r.body.edges <==>
      e in s.edges && e.recipient == userId.value && e.status == Pending
    ensures r.status == 200 ==> forall e :: (multiset(r.body.edges)[e] ==
      if InboxOf(userId.value, e) then multiset(s.edges)[e] else 0)
  {
    if !Present(userId) then Reply(400, Note, s)
    else
      var u := userId.value;
      Reply(200, EdgeList(Filter(s.edges, e => InboxOf(u, e))), s)
  }

  /** GET /friends/notfriends/:userId: every stored user other than
      `userId` and its accepted friends. */
  function GetUsersNotInFriendList(s: Store, userId: Field): (r: Step)
    ensures r.store == s && r.cookie == Keep
    ensures r.status == 400 <==> !Present(userId)
    ensures r.status != 400 ==> r.status == 200 && r.body.IdSet?
    ensures r.status == 200 ==> forall x :: x in r.body.ids <==>
      x in s.users && x != userId.value && !CanMessage(s.edges, userId.value, x)
  {
    if !Present(userId) then Reply(400, Note, s)
    else
      var u := userId.value;
      var friends := FriendIds(s.edges, u);
      Reply(200, IdSet(set x | x in s.users && x != u && x !in friends), s)
  }

  /** POST /friends: record a pending request from `requesterId` to
      `recipientId`. Missing ids give 400 before any lookup; an unknown user
      gives 404 before the duplicate check; any edge between the two, in
      either direction and any status, gives 409. */
  function SendFriendRequest(s: Store, requesterId: Field, recipientId: Field): (r: Step)
    ensures r.cookie == Keep
    ensures r.status == 400 <==> !Present(requesterId) || !Present(recipientId)
    ensures r.status == 404 <==> (Present(requesterId) && Present(recipientId)
      && (requesterId.value !in s.users || recipientId.value !in s.users))
    ensures r.status == 409 <==> (Present(requesterId) && Present(recipientId)
      && requesterId.value in s.users && recipientId.value in s.users
      && HasEdge(s.edges, requesterId.value, recipientId.value))
    ensures r.status in {400, 404, 409} ==> r.store == s && r.body == Note
    ensures r.status !in {400, 404, 409} ==> (r.status == 201
      && r.body == EdgeBody(Friendship(requesterId.value, recipientId.value, Pending))
      && r.store == s.(edges := s.edges + [r.body.edge]))
  {
    if !Present(requesterId) || !Present(recipientId) then Reply(400, Note, s)
    else
      var a, b := requesterId.value, recipientId.value;
      if a !in s.users || b !in s.users then Reply(404, Note, s)
      else if FindFirst(s.edges, e => Links(e, a, b)).Some? then Reply(409, Note, s)
      else
        var e := NewFriendship(a, b);
        Reply(201, EdgeBody(e), s.(edges := s.edges + [e]))
  }

  /** The edge `acceptFriendRequest` looks for: exactly this requester, this
      recipient, still pending. */
  predicate PendingFrom(a: Id, b: Id, e: Friendship) {
    e.requester == a && e.recipient == b && e.status == Pending
  }

  /** PATCH /friends: the recipient accepts. Only the exact
      (requester, recipient, pending) edge qualifies; on success that edge
      alone becomes accepted. */
  function AcceptFriendRequest(s: Store, requesterId: Field, recipientId: Field): (r: Step)
    ensures r.cookie == Keep
    ensures r.status == 400 <==> !Present(requesterId) || !Present(recipientId)
    ensures r.status == 404 <==> (Present(requesterId) && Present(recipientId)
      && forall i :: 0 <= i < |s.edges| ==> !PendingFrom(requesterId.value, recipientId.value, s.edges[i]))
    ensures r.status in {400, 404} ==> r.store == s && r.body == Note
    ensures r.status !in {400, 404} ==> (r.status == 200
      && r.body == EdgeBody(Friendship(requesterId.value, recipientId.value, Accepted))
      && exists i :: (0 <= i < |s.edges| && PendingFrom(requesterId.value, recipientId.value, s.edges[i])
        && r.store == s.(edges := s.edges[i := s.edges[i].(status := Accepted)])))
  {
    if !Present(requesterId) || !Present(recipientId) then Reply(400, Note, s)
    else
      var a, b := requesterId.value, recipientId.value;
      match FindFirst(s.edges, e => PendingFrom(a, b, e))
      case None => Reply(404, Note, s)
      case Some(i) =>
        var e := s.edges[i].(status := Accepted);
        Reply(200, EdgeBody(e), s.(edges := s.edges[i := e]))
  }

  // ----- properties of the state machine -----

  /** Once a request is recorded, a second one for the same pair, from
      either side, is a conflict. */
  lemma RequestIsNotRepeatable(s: Store, a: Id, b: Id)
    requires SendFriendRequest(s, Some(a), Some(b)).status == 201
    ensures var s' := SendFriendRequest(s, Some(a), Some(b)).store;
      SendFriendRequest(s', Some(a), Some(b)).status == 409
      && SendFriendRequest(s', Some(b), Some(a)).status == 409
  {
    var s' := SendFriendRequest(s, Some(a), Some(b)).store;
    assert Links(s'.edges[|s.edges|], a, b);
    assert Links(s'.edges[|s.edges|], b, a);
  }

  /** Nothing stops a user requesting friendship with themself. */
  lemma SelfRequestAllowed(s: Store, a: Id)
    requires a != "" && a in s.users && !HasEdge(s.edges, a, a)
    ensures SendFriendRequest(s, Some(a), Some(a)).status == 201
    ensures SendFriendRequest(s, Some(a), Some(a)).body.edge == Friendship(a, a, Pending)
  {
  }

  /** An accept in the wrong direction finds nothing, even though a pending
      request between the two users exists. */
  lemma AcceptWrongDirection(s: Store, fold: string -> string, i: nat)
    requires Valid(s, fold)
    requires i < |s.edges| && s.edges[i].status == Pending
    requires s.edges[i].requester != s.edges[i].recipient
    requires s.edges[i].requester != "" && s.edges[i].recipient != ""
    ensures AcceptFriendRequest(s, Some(s.edges[i].recipient), Some(s.edges[i].requester)).status == 404
  {
  }

  /** A second accept of the same request finds nothing. */
  lemma AcceptIsNotRepeatable(s: Store, fold: string -> string, a: Id, b: Id)
    requires Valid(s, fold)
    requires AcceptFriendRequest(s, Some(a), Some(b)).status == 200
    ensures var s' := AcceptFriendRequest(s, Some(a), Some(b)).store;
      AcceptFriendRequest(s', Some(a), Some(b)).status == 404
  {
  }

  /** After an accept, the two users may message each other, both ways. */
  lemma AcceptOpensGate(s: Store, a: Id, b: Id)
    requires AcceptFriendRequest(s, Some(a), Some(b)).status == 200
    ensures var s' := AcceptFriendRequest(s, Some(a), Some(b)).store;
      CanMessage(s'.edges, a, b) && CanMessage(s'.edges, b, a)
  {
    var s' := AcceptFriendRequest(s, Some(a), Some(b)).store;
    var i :| 0 <= i < |s.edges| && PendingFrom(a, b, s.edges[i])
      && s' == s.(edges := s.edges[i := s.edges[i].(status := Accepted)]);
    assert Links(s'.edges[i], a, b) && s'.edges[i].status == Accepted;
  }

  /** A user on the other end of a pending request is still suggested. */
  lemma PendingPartnerStillSuggested(s: Store, fold: string -> string, i: nat, u: Id)
    requires Valid(s, fold)
    requires i < |s.edges| && s.edges[i].status == Pending && Touches(s.edges[i], u)
    requires u != "" && Other(s.edges[i], u) != u
    ensures var r := GetUsersNotInFriendList(s, Some(u));
      r.status == 200 && Other(s.edges[i], u) in r.body.ids
  {
  }

  // ----- the invariant -----

  lemma SendFriendRequestKeepsValid(s: Store, fold: string -> string, a: Field, b: Field)
    requires Valid(s, fold)
    ensures Valid(SendFriendRequest(s, a, b).store, fold)
  {
  }

  lemma AcceptFriendRequestKeepsValid(s: Store, fold: string -> string, a: Field, b: Field)
    requires Valid(s, fold)
    ensures Valid(AcceptFriendRequest(s, a, b).store, fold)
  {
  }
}
