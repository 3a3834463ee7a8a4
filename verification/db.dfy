/** The document store the handlers share, the relations the controllers
    read off it, and the invariant every handler keeps. */
module Db {
  import opened Values
  import opened Seqs
  import opened Models

  /** Users by `_id`; friendships and messages in insertion order. */
  datatype Store = Store(users: map<Id, User>, edges: seq<Friendship>, messages: seq<Message>)

  /** An empty database. */
  const Empty: Store := Store(map[], [], [])

  /** The edge joins `a` and `b`, in either direction. */
  predicate Links(e: Friendship, a: Id, b: Id) {
    (e.requester == a && e.recipient == b) || (e.requester == b && e.recipient == a)
  }

  /** The edge has `u` as one of its endpoints. */
  predicate Touches(e: Friendship, u: Id) {
    e.requester == u || e.recipient == u
  }

  /** The endpoint of an edge touching `u` that the friend lists report:
      the recipient when `u` requested, the requester otherwise. */
  function Other(e: Friendship, u: Id): (v: Id)
    requires Touches(e, u)
    ensures Links(e, u, v)
  {
    if e.requester == u then e.recipient else e.requester
  }

  /** Some edge, in any status, joins `a` and `b`. */
  predicate HasEdge(edges: seq<Friendship>, a: Id, b: Id) {
    exists i :: 0 <= i < |edges| && Links(edges[i], a, b)
  }

  /** The messaging gate: an accepted edge joins `a` and `b`, whoever asked. */
  predicate CanMessage(edges: seq<Friendship>, a: Id, b: Id) {
    exists i :: 0 <= i < |edges| && Links(edges[i], a, b) && edges[i].status == Accepted
  }

  /** The gate does not care who is the sender. */
  lemma CanMessageSymmetric(edges: seq<Friendship>, a: Id, b: Id)
    ensures CanMessage(edges, a, b) <==> CanMessage(edges, b, a)
  {
  }

  /** The accepted edges touching `u`, as the friends queries select them. */
  predicate AcceptedWith(u: Id, e: Friendship) {
    Touches(e, u) && e.status == Accepted
  }

  /** `friendships.map(...)`: the other endpoint of each accepted edge
      touching `u`, in store order. They are exactly the users `u` may
      message. */
  function FriendIds(edges: seq<Friendship>, u: Id): (r: seq<Id>)
    ensures forall x :: x in r <==> CanMessage(edges, u, x)
  {
    if |edges| == 0 then []
    else
      var rest := FriendIds(edges[1..], u);
      assert forall x :: CanMessage(edges, u, x) <==>
          (Links(edges[0], u, x) && edges[0].status == Accepted) || CanMessage(edges[1..], u, x) by {
        forall x ensures CanMessage(edges, u, x) ==>
            (Links(edges[0], u, x) && edges[0].status == Accepted) || CanMessage(edges[1..], u, x) {
          if CanMessage(edges, u, x) {
            var i :| 0 <= i < |edges| && Links(edges[i], u, x) && edges[i].status == Accepted;
            if i > 0 { assert edges[1..][i - 1] == edges[i]; }
          }
        }
      }
      if AcceptedWith(u, edges[0]) then [Other(edges[0], u)] + rest else rest
  }

  /** `User.findOne({ email })`: some user whose email is exactly `email`. */
  ghost function FindByEmail(users: map<Id, User>, email: string): (r: Option<Id>)
    ensures r.Some? ==> r.value in users && users[r.value].email == email
    ensures r.None? <==> forall u :: u in users ==> users[u].email != email
  {
    if exists u :: u in users && users[u].email == email then
      var u :| u in users && users[u].email == email; Some(u)
    else None
  }

  /** `User.findOne({})`: some stored user, if there is one. */
  ghost function AnyUser(users: map<Id, User>): (r: Option<Id>)
    ensures r.Some? ==> r.value in users
    ensures r.None? <==> users == map[]
  {
    if users == map[] then None
    else
      assert exists u :: u in users by {
        var u :| u in users.Keys;
      }
      var u :| u in users; Some(u)
  }

  /** `User.findOne({ email }).collation({ locale: 'en', strength: 2 })`:
      some user whose email equals `email` after case folding. `fold` stands
      for the collation's comparison key. */
  ghost function FindByFold(users: map<Id, User>, fold: string -> string, email: string): (r: Option<Id>)
    ensures r.Some? ==> r.value in users && fold(users[r.value].email) == fold(email)
    ensures r.None? <==> forall u :: u in users ==> fold(users[u].email) != fold(email)
  {
    if exists u :: u in users && fold(users[u].email) == fold(email) then
      var u :| u in users && fold(users[u].email) == fold(email); Some(u)
    else None
  }

  // ----- the store invariant -----

  /** Every stored user has the required `name` and `email`. */
  ghost predicate UsersComplete(users: map<Id, User>) {
    forall u :: u in users ==> users[u].name != "" && users[u].email != ""
  }

  /** No two users share an email up to case. Every path that writes an
      email checks this with the collated lookup. */
  ghost predicate EmailsDistinct(users: map<Id, User>, fold: string -> string) {
    forall a, b :: a in users && b in users && a != b ==> fold(users[a].email) != fold(users[b].email)
  }

  /** Two edges are for different unordered pairs. */
  predicate SeparatePairs(e: Friendship, f: Friendship) {
    !Links(f, e.requester, e.recipient)
  }

  /** At most one edge per unordered pair of users. */
  ghost predicate OneEdgePerPair(edges: seq<Friendship>) {
    Pairwise(edges, SeparatePairs)
  }

  /** Every edge joins two stored users. */
  ghost predicate EdgesClosed(s: Store) {
    forall i :: 0 <= i < |s.edges| ==> s.edges[i].requester in s.users && s.edges[i].recipient in s.users
  }

  /** Every message is between stored users and has its required content. */
  ghost predicate MessagesClosed(s: Store) {
    forall i :: 0 <= i < |s.messages| ==>
      s.messages[i].sender in s.users && s.messages[i].receiver in s.users && s.messages[i].content != ""
  }

  /** The invariant of every state the handlers can reach from `Empty`. */
  ghost predicate Valid(s: Store, fold: string -> string) {
    && UsersComplete(s.users)
    && EmailsDistinct(s.users, fold)
    && OneEdgePerPair(s.edges)
    && EdgesClosed(s)
    && MessagesClosed(s)
  }

  lemma EmptyValid(fold: string -> string)
    ensures Valid(Empty, fold)
  {
  }

  /** Case-insensitive distinctness implies the exact unique index holds. */
  lemma DistinctEmailsAreUnique(users: map<Id, User>, fold: string -> string, a: Id, b: Id)
    requires EmailsDistinct(users, fold)
    requires a in users && b in users && users[a].email == users[b].email
    ensures a == b
  {
  }

  /** Under the invariant, a pair has at most one edge: the edge at `i` is
      the only one linking its endpoints. */
  lemma OnlyEdgeOfItsPair(edges: seq<Friendship>, i: nat, j: nat)
    requires OneEdgePerPair(edges)
    requires i < |edges| && j < |edges|
    requires Links(edges[j], edges[i].requester, edges[i].recipient)
    ensures i == j
  {
  }
}
