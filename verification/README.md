# SocialMedia-Backend: friendship, messaging and session core in Dafny

This project models the core of an Express/Mongoose social backend: the
friendship state machine, the messaging gate that depends on it, the user
maintenance handlers with their delete cascade, and the decision logic of the
authentication handlers (login, registration, token refresh, logout).

Each HTTP handler is a pure function from a store and the request's fields to
a `Step`: the status code, the JSON body (up to its human-readable strings),
what happens to the `jwt` refresh cookie, and the store afterwards.

- `values.dfy` (`Values`): optional values, request fields and JavaScript
  truthiness. A string field is `Present` when `!x` is false, which is also
  what a Mongoose `required` string path demands. It is `Filled` when
  `x.trim() !== ''` as well.
- `seqs.dfy` (`Seqs`): `Filter` (a `find`) and `FindFirst` (a `findOne`)
  over a collection kept in insertion order.
- `models.dfy` (`Models`): the Friendship, Message and User schemas, their
  defaults, and the validation and unique-index checks of `User.create` and
  `user.save()`. A password is stored as a `Digest`, a type of its own, so
  the plaintext cannot reach a user record.
- `db.dfy` (`Db`): the store (users by id, edges and messages in insertion
  order), the relations the controllers read, and the invariant `Valid`.
  `Valid` says: users have their required fields; no two emails are equal
  up to case; there is at most one edge per unordered pair; every edge and
  message names stored users.
- `tokens.dfy` (`Tokens`): the two JWT kinds as symbolic signed terms, their
  lifetimes, `jwt.verify`'s key and expiry check, and the session cookie.
- `crypto.dfy` (`Crypto`): bcrypt and token parsing as uninterpreted
  function values.
- `http.dfy` (`Http`): response bodies and steps.
- `friends.dfy`, `messaging.dfy`, `users.dfy`, `auth.dfy`: one module per
  controller.
- `scenarios.dfy`: end-to-end runs from an empty database.

Every mutating handler is proved to keep `Valid`. The proofs show:

- a friend request is never duplicated for a pair;
- an accept works only in the recorded direction, and only once;
- the messaging gate is symmetric and opened only by an accepted edge;
- the delete cascade removes exactly the edges and messages that name the
  user.

Collation is the abstract comparison key `fold`, used only where the source
applies `collation({ locale: 'en', strength: 2 })`. The clock (`now`), the
`_id` the store assigns (`newId`) and the bcrypt salt are parameters.

Behaviours of the code that a reader might not expect:

- The cookie is sent with `sameSite: 'None'`.
- An unknown id in `deleteUser` and `updateUser` is a 400; `getUserDetails`
  answers 404 for the same case.
- Login looks emails up exactly, while the duplicate checks compare them
  up to case.
- The access token issued by login and refresh has no `username` claim:
  it reads `foundUser.username`, a path the User schema does not have.
- Registration never succeeds (see Findings).

## Model

| member | source | states |
|---|---|---|
| `Values.FilledIsPresent` | controllers/authController.js:11-13 | login's trimmed check is stricter than presence: the present values it refuses are exactly the non-empty whitespace-only strings |
| `Seqs.Filter` | controllers/friendsController.js:13-16 | a `find` returns at most the stored documents, each matching one exactly as often as it is stored, and no other |
| `Seqs.FindFirst` | controllers/friendsController.js:93-98 | a `findOne` without a sort returns the first matching document in store order, and nothing only when no document matches |
| `Models.CreateUser` | models/User.js:3-10 | creation is refused exactly when `name` or `email` is missing, or the `_id` or exact email is taken; otherwise it adds one record with `profilePicture` null |
| `Models.SaveUser` | models/User.js:5-7 | saving succeeds exactly when name and email are present and no other user has the exact email; only that record changes |
| `Db.FriendIds` | controllers/friendsController.js:50-54 | the other endpoints of the accepted edges touching `u` are exactly the users `u` may message |
| `Db.FindByEmail` | controllers/authController.js:15 | an exact-email lookup finds a user with exactly that email, and finds nothing only when no user has it |
| `Db.AnyUser` | controllers/authController.js:149 | a lookup whose filter is `{ email: undefined }`, which Mongoose treats as the empty filter, finds some stored user, and finds none only on an empty collection |
| `Db.FindByFold` | controllers/usersController.js:109 | a collated lookup finds a user whose email folds to the same key, and finds nothing only when none does |
| `Db.DistinctEmailsAreUnique` | models/User.js:6 | case-insensitive distinctness implies the exact unique index on email |
| `Db.OnlyEdgeOfItsPair` | controllers/friendsController.js:93-102 | under the invariant, an edge is the only one linking its two endpoints |
| `Db.CanMessageSymmetric` | controllers/messageController.js:43-48 | the friendship gate gives the same answer with sender and receiver swapped |
| `Tokens.Verify` | controllers/authController.js:143-147 | a token verifies exactly when the given secret signed it and it has not expired, and then yields its own payload |
| `Tokens.TopEmail` | controllers/authController.js:149 | only a refresh payload exposes a top-level email |
| `Tokens.SignedTokenLifetime` | controllers/authController.js:25-41 | a token verifies with its own secret for exactly its lifetime after issue, and never with the other secret |
| `Tokens.TokenAndCookieLifetimes` | controllers/authController.js:34-48 | access tokens last 15 minutes and refresh tokens 7 days; the cookie's maxAge is 604800000 ms, the refresh lifetime in ms |
| `Auth.OpenSession` | controllers/authController.js:25-58 | a session answers 200 with the user's id and email. Its access token verifies under the access secret to the user's `UserInfo` exactly during the 15 minutes after issue, and never under the refresh secret. The `jwt` cookie's token verifies under the refresh secret to the email alone exactly during the 7 days after issue, and never under the access secret; the cookie has the session flags |
| `Friends.GetFriendRequests` | controllers/friendsController.js:4-30 | 400 exactly when the id is missing; otherwise 200 with exactly the pending edges whose recipient is the user, each as often as it is stored; the store is unchanged |
| `Friends.GetUsersNotInFriendList` | controllers/friendsController.js:32-72 | 400 exactly when the id is missing. Otherwise the result is every stored user except the user and their accepted friends |
| `Friends.SendFriendRequest` | controllers/friendsController.js:76-120 | 400 exactly when an id is missing; then 404 exactly when a user is unknown; then 409 exactly when any edge joins the two in either direction and any status; failures leave the store alone; success appends exactly one pending edge from the requester |
| `Friends.AcceptFriendRequest` | controllers/friendsController.js:123-154 | 400 exactly when an id is missing; 404 exactly when no (requester, recipient, pending) edge exists; success turns exactly that one edge to accepted and changes nothing else |
| `Friends.RequestIsNotRepeatable` | controllers/friendsController.js:93-116 | after a successful request, a second one for the pair from either side is a 409 |
| `Friends.SelfRequestAllowed` | controllers/friendsController.js:80-109 | a user with no self-edge can send a request to themself and gets a pending self-edge |
| `Friends.AcceptWrongDirection` | controllers/friendsController.js:133-141 | under the invariant, accepting a pending request with the roles swapped is a 404 |
| `Friends.AcceptIsNotRepeatable` | controllers/friendsController.js:133-145 | under the invariant, repeating a successful accept is a 404 |
| `Friends.AcceptOpensGate` | controllers/friendsController.js:144-145 | after an accept, both users pass the messaging gate in both directions |
| `Friends.PendingPartnerStillSuggested` | controllers/friendsController.js:41-59 | under the invariant, the other party of a pending edge is still in the not-friends list |
| `Friends.SendFriendRequestKeepsValid` | models/Friend.js:3-13 | one edge per pair holds although the schema has no pair index: the controller's check keeps the invariant |
| `Friends.AcceptFriendRequestKeepsValid` | controllers/friendsController.js:133-145 | accepting keeps the invariant |
| `Messaging.InsertByTime` | controllers/messageController.js:20 | inserting into a time-ordered history keeps it ordered and adds exactly that message |
| `Messaging.SortByTime` | controllers/messageController.js:20 | the history is a permutation of its input, ascending by createdAt |
| `Messaging.InsertByTimeKeepsTies` | controllers/messageController.js:20 | an inserted message goes in front of the messages with its timestamp, and every timestamp's messages keep their relative order |
| `Messaging.SortByTimeIsStable` | controllers/messageController.js:20 | for every timestamp, the sorted history lists the messages with that timestamp in store order |
| `Messaging.SendMessage` | controllers/messageController.js:33-71 | 400 exactly when a field is missing; 403 exactly when no accepted edge joins the two in either direction; success appends exactly one unread message, returns 201 and leaves edges and users alone |
| `Messaging.GetMessages` | controllers/messageController.js:5-30 | 400 exactly when an id is missing. The result holds every message between the two ids, either way round, with its multiplicity and nothing else, in ascending time. An empty history is a 200 with a message object |
| `Messaging.GetMessagesSymmetric` | controllers/messageController.js:15-19 | asking for (a, b) and for (b, a) gives the same response |
| `Messaging.SendMessageGateSymmetric` | controllers/messageController.js:43-52 | swapping sender and receiver does not change whether a message is refused with 403 |
| `Messaging.OnlyAcceptedOpensGate` | controllers/messageController.js:43-52 | under the invariant, a pending or rejected edge between the two still gives 403 |
| `Messaging.SentMessageIsListed` | controllers/messageController.js:55-67 | a sent message appears in its parties' history |
| `Messaging.SendMessageKeepsValid` | controllers/messageController.js:55-67 | sending keeps the invariant, since the gate's edge names stored users |
| `Users.GetAllUsers` | controllers/usersController.js:10-24 | never lists the caller, lists every other user, and answers 400 exactly when there is no other user |
| `Users.GetUserDetails` | controllers/usersController.js:45-92 | 400 on a missing id, 404 on an unknown user. Otherwise it returns the stored user record, password digest included. It also returns every message the user sent or received, each as often as it is stored, and as friends exactly the stored users joined to them by an accepted edge |
| `Users.CreateNewUser` | controllers/usersController.js:99-131 | 400 exactly when a field is missing; 409 exactly when an email matches up to case; success adds one record with name = username, the email and the bcrypt digest of the password |
| `Users.UpdateUser` | controllers/usersController.js:137-179 | 400 on a missing field or unknown user; 409 only if another user has the email up to case. Success overwrites name and email, re-hashes the password only when given, replaces the picture only when given, and nothing else. The reply carries the saved record, password digest included |
| `Users.DeleteUser` | controllers/usersController.js:185-217 | 400 on a missing or unknown id; otherwise removes that user and exactly the edges and messages naming them, keeping all others with their multiplicity |
| `Users.DeleteLeavesNoReference` | controllers/usersController.js:204-207 | after a delete no user, edge or message names the deleted id |
| `Users.CreateNewUserOutcomes` | controllers/usersController.js:108-121 | a complete fresh request fails only when the assigned `_id` is taken: the unique index never fires after the collated check |
| `Users.UpdateOwnEmail` | controllers/usersController.js:152-156 | re-saving one's own email is not a conflict |
| `Users.UpdateConflictsOnlyWithOthers` | controllers/usersController.js:152-156 | under the invariant, an update is a 409 when a different user has the email up to case and a 200 otherwise |
| `Users.CascadeKeepsEdgesClosed` | controllers/usersController.js:204 | the edges left after the cascade still join stored users |
| `Users.CascadeKeepsMessagesClosed` | controllers/usersController.js:207 | the messages left after the cascade are still between stored users |
| `Users.CreateNewUserKeepsValid` | controllers/usersController.js:108-121 | creation keeps the invariant |
| `Users.UpdateUserKeepsValid` | controllers/usersController.js:152-173 | updating keeps the invariant |
| `Users.DeleteUserKeepsValid` | controllers/usersController.js:200-210 | the cascade keeps the invariant |
| `Auth.Login` | controllers/authController.js:8-59 | 400 exactly when a field is missing or blank after trimming, before any lookup. 401 on an unknown email or a wrong password. Success opens a session for the user with exactly that email, and the token has no username claim. The store is unchanged |
| `Auth.Register` | controllers/authController.js:65-129 | 400 exactly when a field is missing, with no trimming; 409 exactly when an email matches up to case; every other outcome is 500. The store never changes and no cookie is set |
| `Auth.RegisterFixed` | controllers/authController.js:65-129 | the corrected registration: 400 and 409 as written. Success adds the account as account creation does and opens a session with the username in the access token |
| `Auth.Refresh` | controllers/authController.js:136-167 | 401 without a cookie; 403 exactly when the cookie does not verify under the refresh secret. A verified email is looked up exactly: 401 when no user has it. A payload without a top-level email finds any stored user, and is a 401 only when there is none. Success returns only a new access token without an `id` claim and sets no cookie |
| `Auth.Logout` | controllers/authController.js:172-177 | 204 exactly when no cookie is sent; otherwise 200 and the `jwt` cookie is cleared with the flags it was set with |
| `Auth.SessionCookieAttributes` | controllers/authController.js:44-49 | a successful login or registration sets the `jwt` cookie httpOnly and secure, with sameSite None and a maxAge of 604800000 ms |
| `Auth.RefreshWithoutEmailFindsSomeUser` | controllers/authController.js:149-151 | a verified refresh cookie whose payload has no top-level email is a 401 on an empty user collection and a 200 otherwise |
| `Auth.LoginFailuresIndistinguishable` | controllers/authController.js:17-23 | under the invariant, an unknown email and a wrong password give the identical 401 step, and every failed login with filled fields is that step |
| `Auth.LoginIsCaseSensitive` | controllers/authController.js:15 | under the invariant, a case variant of a stored email cannot log in but is still refused as a duplicate at registration |
| `Auth.RefreshAfterLogin` | controllers/authController.js:139-164 | a cookie from login, used before it expires on any later store where a user still has that email, yields exactly a new access token for that email and nothing else |
| `Auth.RefreshRejectsStaleOrWrongKind` | controllers/authController.js:143-147 | an expired cookie token, or an access token used as the cookie, gives 403 |
| `Auth.LogoutEndsSession` | controllers/authController.js:174-176 | after logout the client holds no session cookie whether or not one was sent, and the store is unchanged |
| `Auth.RegisterFixedCreatesLikeCreateNewUser` | controllers/authController.js:69-87 | the corrected registration changes the store exactly as account creation does and succeeds in the same cases |
| `Auth.RegisterAsWrittenNeverCreates` | controllers/authController.js:84-87 | on a fresh, complete request the registration as written answers 500 while the corrected one answers 200 |
| `Auth.RegisterFixedKeepsValid` | controllers/authController.js:69-87 | the corrected registration keeps the invariant |
| `Scenarios.FriendsCanChat` | controllers/messageController.js:5-71 | two registrations, a request, its acceptance and one message leave exactly that unread message in the history |
| `Scenarios.TwoAccounts` | controllers/authController.js:65-87 | two registrations with distinct emails store both accounts and no edges or messages |
| `Scenarios.ChatBetween` | controllers/friendsController.js:76-154 | from two unconnected accounts, request then accept then send gives a one-message history |
| `Scenarios.StrangersCannotChat` | controllers/messageController.js:43-52 | two accounts with no edge cannot message: 403 |
| `Scenarios.CaseVariantEmailConflicts` | controllers/authController.js:74-78 | a second registration whose email differs only in case is a 409 |
| `Scenarios.RegisterFailsFirstStep` | controllers/authController.js:84-87 | with the registration as written, the first account is never created and the following friend request is a 404 |
| `Scenarios.RegisteredUserLogsIn` | controllers/authController.js:17-23 | a registered account logs in with its password when bcrypt's compare accepts its own digests |

## Findings

| source | as written | input that shows it | evidently intended | confidence | as-written member | corrected member |
|---|---|---|---|---|---|---|
| controllers/authController.js:84-87 | The document is built as `{ username, email, password }`. The User schema has no `username` path and requires `name` (models/User.js:5). So `User.create` always fails validation and the handler answers 500 | a registration with username "alice", password "pw1" and email "alice@example.com" on an empty database | `{ name: username, email, password }`, the object account creation builds (controllers/usersController.js:118) | high; not executed | `Auth.RegisterAsWrittenNeverCreates` | `Auth.RegisterFixed` |

The scenarios use `Auth.RegisterFixed`. `Scenarios.RegisterFailsFirstStep`
shows the same scenario failing at its first step with `Auth.Register`.

## Left out

- Posts (controllers/postsController.js, models/Post.js) are left out. So
  are the posts in the user details (controllers/usersController.js:60),
  which filter on the declared `userId` path, and the posts step of the
  delete cascade (controllers/usersController.js:201). That step filters on
  `user`, a path the Post schema does not declare, so its effect depends on
  Mongoose's query strictness.
- Uploads (controllers/uploadController.js), the routes, and the `verifyJWT`
  middleware are left out; they are file I/O and Express wiring. The
  middleware's file is not part of this model. Its result reaches
  `Users.GetAllUsers` as the `current` parameter.
- `searchUsers` is left out: it is regex matching on names.
- bcrypt and jsonwebtoken internals are uninterpreted. `hash`, `compare` and
  the parsing of a cookie string back into a token are function parameters.
  A signed token is modelled by its payload, key, `iat` and `exp`.
- `populate`, `select` and `lean` projections are left out. User lists are
  returned as sets of ids, and edges without their populated requester.
- Users.GetUserDetails: the friends are returned as a set of ids rather
  than as user documents without their password, and the user's posts are
  not returned. The user itself is the whole stored record, as in the
  source.
- The human-readable message strings and the echoed `err.message` are left
  out; a body carrying only a message is `Note`.
- Malformed ObjectIds are not modelled: any non-empty string is an id. In the
  source, Mongoose throws a cast error on them, which in `sendFriendRequest`
  (controllers/friendsController.js:85-86) and `getAllUsers`
  (controllers/usersController.js:14) happens outside any `try`.
- Ids are assumed to be in canonical form, lower-case hexadecimal. The store
  casts an id to an ObjectId, which ignores the case of its hex digits, while
  three comparisons use `toString()` strings:
  controllers/friendsController.js:51, controllers/usersController.js:75 and
  controllers/usersController.js:154. An upper-case spelling of a stored id
  would therefore find the user but fail those comparisons; in `updateUser`
  with the user's own email the source answers 409, where the model, whose
  ids are compared as plain strings, answers 400.
- Store failures (lost connections and the like) are not modelled. A 500
  arises only from a write the store refuses.
- Concurrency is not modelled: each handler is one atomic step. The
  check-then-insert race of `sendFriendRequest` is therefore out of scope.
- The `createdAt`/`updatedAt` timestamps of users and friendships, the
  second ObjectId path `id` (`auto: true`) beside `_id`, and the unused
  `friends` array of the User schema, are not modelled; the user record
  returned by `getUserDetails` and `updateUser` lacks them.
- Mongo does not guarantee the order of messages with equal `createdAt`. The
  model fixes one: its sort is stable, so they keep their store order. That
  `Messaging.GetMessagesSymmetric` gives the identical sequence for (a, b)
  and (b, a) depends on this fixed tie order; Mongo promises only the same
  messages in a time order.
- A cookie token that verifies but carries an access-token payload has no
  top-level `email`, so the lookup's filter is `{ email: undefined }`, which
  Mongoose treats as the empty filter. The model finds an arbitrary stored
  user there; which one Mongo returns (its natural order) is not modelled.
- Request values are strings or absent; numbers, arrays and objects in a JSON
  body are not modelled.
- Users.UpdateUser: its contract states the 409 case in one direction only,
  because without the invariant the collated `findOne` may return any
  matching user; `Users.UpdateConflictsOnlyWithOthers` states both directions
  under the invariant.
- Auth.Login: its contract says only that a 401 means an unknown email or a
  wrong password for some matching user. Without the invariant, which user
  `findOne` returns is unspecified. `Auth.LoginFailuresIndistinguishable`
  is exact under the invariant.
