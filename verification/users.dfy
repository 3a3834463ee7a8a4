/** Account maintenance: listing, details, creation, update and the delete
    cascade (controllers/usersController.js). */
module Users {
  import opened Values
  import opened Seqs
  import opened Models
  import opened Db
  import opened Tokens
  import opened Crypto
  import opened Http

  /** GET /users: every user but the caller `current` (the identity the
      access-token middleware attached). An empty list is a 400. */
  function GetAllUsers(s: Store, current: Id): (r: Step)
    ensures r.store == s && r.cookie == Keep
    ensures r.status == 400 <==> forall u :: u in s.users ==> u == current
    ensures r.status != 400 ==> (r.status == 200 && r.body.IdSet?
      && current !in r.body.ids
      && forall u :: u in s.users && u != current ==> u in r.body.ids)
    ensures r.status == 200 ==> r.body.ids <= s.users.Keys
  {
    var others := s.users.Keys - {current};
    if others == {} then
      assert forall u :: u in s.users ==> u == current by {
        forall u | u in s.users ensures u == current {
          assert u !in others;
        }
      }
      Reply(400, Note, s)
    else Reply(200, IdSet(others), s)
  }

  /** A message `u` sent or received. */
  predicate Involves(u: Id, m: Message) {
    m.sender == u || m.receiver == u
  }

  /** GET /users/:userId: the user's whole stored record (password digest
      included, as no field is deselected), every message they sent or
      received, and the stored users joined to them by an accepted edge. */
  function GetUserDetails(s: Store, userId: Field): (r: Step)
    ensures r.store == s && r.cookie == Keep
    ensures r.status == 400 <==> !Present(userId)
    ensures r.status == 404 <==> Present(userId) && userId.value !in s.users
    ensures r.status !in {400, 404} ==> (r.status == 200 && r.body.Details?
      && r.body.id == userId.value && r.body.user == s.users[userId.value]
      && (forall m :: multiset(r.body.messages)[m] ==
            if Involves(userId.value, m) then multiset(s.messages)[m] else 0)
      && (forall x :: x in r.body.friends <==> x in s.users && CanMessage(s.edges, userId.value, x)))
  {
    if !Present(userId) then Reply(400, Note, s)
    else
      var u := userId.value;
      if u !in s.users then Reply(404, Note, s)
      else
        var messages := Filter(s.messages, m => Involves(u, m));
        var friendIds := FriendIds(s.edges, u);
        Reply(200, Details(u, s.users[u], messages, set x | x in s.users && x in friendIds), s)
  }

  /** POST /users: create an account. Missing fields give 400; an email
      already in use up to case gives 409; the record stores `username` as
      `name` and the bcrypt digest of the password. `newId` is the `_id` the
      store assigns and `salt` the hasher's random salt; a write the store
      refuses is a 500. */
  ghost function CreateNewUser(s: Store, fold: string -> string, p: Primitives,
                               username: Field, password: Field, email: Field,
                               newId: Id, salt: nat): (r: Step)
    ensures r.cookie == Keep && r.body == Note
    ensures r.status == 400 <==> !Present(username) || !Present(password) || !Present(email)
    ensures r.status == 409 <==> (Present(username) && Present(password) && Present(email)
      && exists u :: u in s.users && fold(s.users[u].email) == fold(email.value))
    ensures r.status in {400, 409, 500} ==> r.store == s
    ensures r.status !in {400, 409, 500} ==> (r.status == 201
      && newId !in s.users
      && r.store == s.(users := s.users[newId := User(username.value, email.value,
                                                    p.hash(password.value, SaltRounds, salt), None)]))
  {
    if !Present(username) || !Present(password) || !Present(email) then Reply(400, Note, s)
    else if FindByFold(s.users, fold, email.value).Some? then Reply(409, Note, s)
    else
      var digest := p.hash(password.value, SaltRounds, salt);
      match CreateUser(s.users, newId, Draft(username, email, digest))
      case Err(_) => Reply(500, Note, s)
      case Ok(users) => Reply(201, Note, s.(users := users))
  }

  /** PATCH /users: overwrite `name` and `email`, re-hash the password only
      when one is given, and replace the picture only when one is given. An
      unknown user is a 400 (not 404); an email taken up to case by a
      different user is a 409, so re-saving one's own email succeeds. The
      reply carries the saved record, password digest included. */
  ghost function UpdateUser(s: Store, fold: string -> string, p: Primitives,
                            id: Field, username: Field, email: Field,
                            password: Field, profilePicture: Field, salt: nat): (r: Step)
    ensures r.cookie == Keep
    ensures r.status == 400 <==> !Present(id) || !Present(username) || !Present(email) || id.value !in s.users
    ensures r.status in {400, 409, 500} ==> r.store == s && r.body == Note
    ensures r.status == 409 ==> exists u :: u in s.users && u != id.value && fold(s.users[u].email) == fold(email.value)
    ensures r.status !in {400, 409, 500} ==> (r.status == 200
      && id.value in r.store.users && r.body == Saved(r.store.users[id.value])
      && var old_ := s.users[id.value];
      && r.store == s.(users := s.users[id.value := User(
           username.value,
           email.value,
           if Present(password) then p.hash(password.value, SaltRounds, salt) else old_.password,
           if Present(profilePicture) then profilePicture else old_.profilePicture)]))
  {
    if !Present(id) || !Present(username) || !Present(email) then Reply(400, Note, s)
    else if id.value !in s.users then Reply(400, Note, s)
    else
      var dup := FindByFold(s.users, fold, email.value);
      if dup.Some? && dup.value != id.value then Reply(409, Note, s)
      else
        var user := s.users[id.value];
        var user := user.(name := username.value, email := email.value);
        var user := if Present(password) then user.(password := p.hash(password.value, SaltRounds, salt)) else user;
        var user := if Present(profilePicture) then user.(profilePicture := profilePicture) else user;
        match SaveUser(s.users, id.value, user)
        case Err(_) => Reply(500, Note, s)
        case Ok(users) => Reply(200, Saved(users[id.value]), s.(users := users))
  }

  /** DELETE /users: remove a user with every edge and message that names
      them. A missing or unknown id is a 400. */
  function DeleteUser(s: Store, id: Field): (r: Step)
    ensures r.cookie == Keep && r.body == Note
    ensures r.status == 400 <==> !Present(id) || id.value !in s.users
    ensures r.status == 400 ==> r.store == s
    ensures r.status != 400 ==> (r.status == 200
      && r.store.users.Keys == s.users.Keys - {id.value}
      && (forall u :: u in r.store.users ==> r.store.users[u] == s.users[u])
      && (forall e :: multiset(r.store.edges)[e] == if Touches(e, id.value) then 0 else multiset(s.edges)[e])
      && (forall m :: multiset(r.store.messages)[m] == if Involves(id.value, m) then 0 else multiset(s.messages)[m]))
  {
    if !Present(id) then Reply(400, Note, s)
    else
      var u := id.value;
      if u !in s.users then Reply(400, Note, s)
      else
        var edges := Filter(s.edges, e => !Touches(e, u));
        var messages := Filter(s.messages, m => !Involves(u, m));
        Reply(200, Note, Store(s.users - {u}, edges, messages))
  }

  // ----- properties -----

  /** After a delete nothing refers to the removed user. */
  lemma DeleteLeavesNoReference(s: Store, u: Id)
    requires DeleteUser(s, Some(u)).status == 200
    ensures var s' := DeleteUser(s, Some(u)).store;
      && u !in s'.users
      && (forall i :: 0 <= i < |s'.edges| ==> !Touches(s'.edges[i], u))
      && (forall i :: 0 <= i < |s'.messages| ==> !Involves(u, s'.messages[i]))
  {
  }

  /** The unique index never fires after the collated duplicate check, since
      an exact match is also a match up to case: creation fails only if the
      assigned `_id` is taken. */
  lemma CreateNewUserOutcomes(s: Store, fold: string -> string, p: Primitives,
                              username: string, password: string, email: string,
                              newId: Id, salt: nat)
    requires username != "" && password != "" && email != ""
    requires forall u :: u in s.users ==> fold(s.users[u].email) != fold(email)
    ensures CreateNewUser(s, fold, p, Some(username), Some(password), Some(email), newId, salt).status
      == if newId in s.users then 500 else 201
  {
  }

  /** Saving one's own, unchanged email is never a conflict. */
  lemma UpdateOwnEmail(s: Store, fold: string -> string, p: Primitives,
                       id: Id, username: string, password: Field,
                       profilePicture: Field, salt: nat)
    requires Valid(s, fold)
    requires id != "" && username != "" && id in s.users
    ensures UpdateUser(s, fold, p, Some(id), Some(username), Some(s.users[id].email),
                       password, profilePicture, salt).status == 200
  {
  }

  /** Under the invariant, an update is a conflict exactly when a different
      user already holds the new email up to case, and succeeds otherwise. */
  lemma UpdateConflictsOnlyWithOthers(s: Store, fold: string -> string, p: Primitives,
                                      id: string, username: string, email: string,
                                      password: Field, profilePicture: Field, salt: nat)
    requires Valid(s, fold)
    requires id != "" && username != "" && email != "" && id in s.users
    ensures UpdateUser(s, fold, p, Some(id), Some(username), Some(email), password, profilePicture, salt).status
      == if exists u :: u in s.users && u != id && fold(s.users[u].email) == fold(email) then 409 else 200
  {
  }

  lemma CreateNewUserKeepsValid(s: Store, fold: string -> string, p: Primitives,
                                username: Field, password: Field, email: Field,
                                newId: Id, salt: nat)
    requires Valid(s, fold)
    ensures Valid(CreateNewUser(s, fold, p, username, password, email, newId, salt).store, fold)
  {
  }

  lemma UpdateUserKeepsValid(s: Store, fold: string -> string, p: Primitives,
                             id: Field, username: Field, email: Field,
                             password: Field, profilePicture: Field, salt: nat)
    requires Valid(s, fold)
    ensures Valid(UpdateUser(s, fold, p, id, username, email, password, profilePicture, salt).store, fold)
  {
  }

  /** The edges left by the cascade still join stored users. */
  lemma CascadeKeepsEdgesClosed(s: Store, u: Id)
    requires EdgesClosed(s)
    ensures EdgesClosed(Store(s.users - {u}, Filter(s.edges, e => !Touches(e, u)), []))
  {
    var edges := Filter(s.edges, e => !Touches(e, u));
    forall i | 0 <= i < |edges|
      ensures edges[i].requester in s.users - {u} && edges[i].recipient in s.users - {u}
    {
      assert edges[i] in edges;
      var k :| 0 <= k < |s.edges| && s.edges[k] == edges[i];
    }
  }

  /** The messages left by the cascade are still between stored users. */
  lemma CascadeKeepsMessagesClosed(s: Store, u: Id)
    requires MessagesClosed(s)
    ensures MessagesClosed(Store(s.users - {u}, [], Filter(s.messages, m => !Involves(u, m))))
  {
    var messages := Filter(s.messages, m => !Involves(u, m));
    forall i | 0 <= i < |messages|
      ensures messages[i].sender in s.users - {u} && messages[i].receiver in s.users - {u}
      ensures messages[i].content != ""
    {
      assert messages[i] in messages;
      var k :| 0 <= k < |s.messages| && s.messages[k] == messages[i];
    }
  }

  lemma DeleteUserKeepsValid(s: Store, fold: string -> string, id: Field)
    requires Valid(s, fold)
    ensures Valid(DeleteUser(s, id).store, fold)
  {
    if Present(id) && id.value in s.users {
      var u := id.value;
      FilterPairwise(s.edges, e => !Touches(e, u), SeparatePairs);
      CascadeKeepsEdgesClosed(s, u);
      CascadeKeepsMessagesClosed(s, u);
    }
  }
}
