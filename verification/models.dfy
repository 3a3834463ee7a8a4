/** The three Mongoose schemas of the core: Friendship, Message and User,
    with their defaults and the checks the store applies when a document is
    written. */
module Models {
  import opened Values

  /** The `status` enum of a friendship; no other value can be stored. */
  datatype Status = Pending | Accepted | Rejected

  /** A friendship edge. Both endpoints are required ObjectIds. The schema
      declares no index on the (requester, recipient) pair, so nothing at this
      level stops two edges for one pair. */
  datatype Friendship = Friendship(requester: Id, recipient: Id, status: Status)

  /** A new edge as the schema builds it when `status` is not given. */
  function NewFriendship(requester: Id, recipient: Id): Friendship {
    Friendship(requester, recipient, Pending)
  }

  /** A direct message. `createdAt` (milliseconds) is the history's ordering
      key; nothing links a message to the friendship that allowed it. */
  datatype Message = Message(sender: Id, receiver: Id, content: string, isRead: bool, createdAt: int)

  /** A new message stamped with the clock reading `now`; `isRead` starts false. */
  function NewMessage(sender: Id, receiver: Id, content: string, now: int): Message {
    Message(sender, receiver, content, false, now)
  }

  /** The output of the password hasher. It is a type of its own so that a
      plaintext password cannot be stored in a user record. */
  datatype Digest = Digest(text: string)

  /** A stored user. `profilePicture` is `None` until one is set. */
  datatype User = User(name: string, email: string, password: Digest, profilePicture: Option<string>)

  /** The document handed to `User.create`: the values of the schema's own
      paths only. Paths the schema does not declare (such as `username`) are
      dropped before validation, so they have no place here. */
  datatype Draft = Draft(name: Field, email: Field, password: Digest)

  /** Why the store refused a user write. */
  datatype WriteError = ValidationFailed | DuplicateKey

  /** The exact-match unique index on `email`, ignoring the record `self`. */
  predicate EmailTaken(users: map<Id, User>, email: string, self: Id) {
    exists u :: u in users && u != self && users[u].email == email
  }

  /** `User.create`: validates the required paths, then inserts under a fresh
      `_id`, refusing a second document with the same `_id` or exact email. */
  function CreateUser(users: map<Id, User>, id: Id, d: Draft): (r: Result<map<Id, User>, WriteError>)
    ensures r == Err(ValidationFailed) <==> !Present(d.name) || !Present(d.email)
    ensures r.Ok? ==> id !in users && r.value == users[id := User(d.name.value, d.email.value, d.password, None)]
    ensures r.Ok? ==> forall u :: u in users ==> users[u].email != d.email.value
    ensures r.Ok? <==> Present(d.name) && Present(d.email) && id !in users && !EmailTaken(users, d.email.value, id)
  {
    if !Present(d.name) || !Present(d.email) then Err(ValidationFailed)
    else if id in users || EmailTaken(users, d.email.value, id) then Err(DuplicateKey)
    else Ok(users[id := User(d.name.value, d.email.value, d.password, None)])
  }

  /** `user.save()` on an existing record: validates the required paths and
      the unique index, then replaces the record. */
  function SaveUser(users: map<Id, User>, id: Id, u: User): (r: Result<map<Id, User>, WriteError>)
    requires id in users
    ensures r.Ok? <==> u.name != "" && u.email != "" && !EmailTaken(users, u.email, id)
    ensures r.Ok? ==> r.value.Keys == users.Keys && r.value[id] == u
    ensures r.Ok? ==> forall v :: v in users && v != id ==> r.value[v] == users[v]
  {
    if u.name == "" || u.email == "" then Err(ValidationFailed)
    else if EmailTaken(users, u.email, id) then Err(DuplicateKey)
    else Ok(users[id := u])
  }
}
